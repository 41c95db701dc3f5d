/**
 * The earlier revision of the program, src/main.rs: free functions over a
 * `Repository`. It finds the deletable branches through
 * `Repository::list_merged_branches`, removes from every container set the
 * branches that are deletable themselves, and always fetches. That method is
 * called at src/main.rs:55 but defined in none of the files modelled here; it is
 * taken to list the branches merged into the given one, as the comment at
 * src/main.rs:45 ("branch_to_delete => (branches containing it)") implies.
 */
module MainRevision {
  import opened Wrappers
  import opened GitOutput
  import opened Repo
  import opened AppUi
  import opened Traces

  /** `get_protected_branches`: `master` and the excluded branches. */
  method GetProtectedBranches(excluded: seq<string>) returns (protectedBranches: set<string>)
    ensures forall b :: b in protectedBranches <==> b == "master" || b in excluded
  {
    protectedBranches := {};
    protectedBranches := protectedBranches + {"master"};
    for i := 0 to |excluded|
      invariant forall b :: b in protectedBranches <==> b == "master" || b in excluded[..i]
    {
      protectedBranches := protectedBranches + {excluded[i]};
    }
    assert excluded[..|excluded|] == excluded;
  }

  // -------------------------------------------------- the merged-into map

  /** The merged list of `branch`; empty when git fails, which ends the loop before it is read. */
  function MergedOf(repo: Repository, branch: string): seq<string>
    reads repo`branches
  {
    match repo.MergedAnswer(branch)
    case Ok(xs) => xs
    case Err(_) => []
  }

  /** The branches of `bs`, other than `k`, whose merged list names `k`, when `k` is not protected. */
  function Mergers(repo: Repository, excluded: seq<string>, bs: seq<string>, k: string): set<string>
    reads repo`branches
  {
    set b | b in bs && k in MergedOf(repo, b) && k != b && k != "master" && k !in excluded
  }

  lemma MergersStep(repo: Repository, excluded: seq<string>, bs: seq<string>, b: string, k: string)
    ensures Mergers(repo, excluded, bs + [b], k) ==
            Mergers(repo, excluded, bs, k)
            + (if k in MergedOf(repo, b) && k != b && k != "master" && k !in excluded then {b} else {})
  {
  }

  /** `m` maps each unprotected branch with a non-empty set of mergers among `bs` to that set, and nothing else. */
  ghost predicate MergersMap(repo: Repository, excluded: seq<string>, bs: seq<string>, m: map<string, set<string>>)
    reads repo`branches
  {
    (forall k :: k in m <==> Mergers(repo, excluded, bs, k) != {})
    && (forall k :: k in m ==> m[k] == Mergers(repo, excluded, bs, k))
  }

  /** One round of the outer loop of `get_deletable_branches` extends the map from `done` to `done + [b]`. */
  lemma MergersMapStep(repo: Repository, excluded: seq<string>, done: seq<string>, b: string,
                       protectedBranches: set<string>, m: map<string, set<string>>, next: map<string, set<string>>)
    requires MergersMap(repo, excluded, done, m)
    requires forall x :: x in protectedBranches <==> x == "master" || x in excluded
    requires forall k :: k in next <==> k in m || (k in MergedOf(repo, b) && k !in protectedBranches && k != b)
    requires forall k :: k in next ==>
               next[k] == (if k in m then m[k] else {})
                          + (if k in MergedOf(repo, b) && k !in protectedBranches && k != b then {b} else {})
    ensures MergersMap(repo, excluded, done + [b], next)
  {
    forall k
      ensures k in next <==> Mergers(repo, excluded, done + [b], k) != {}
      ensures k in next ==> next[k] == Mergers(repo, excluded, done + [b], k)
    {
      MergersStep(repo, excluded, done, b, k);
    }
  }

  /** A branch of `merged` is in the merged list of the repository, which is made of listed branches `branch` reaches. */
  lemma MergedOfMeaning(repo: Repository, branch: string, k: string)
    requires repo.MergedAnswer(branch).Ok?
    ensures k in MergedOf(repo, branch) <==>
              k in repo.branches && k !in repo.world.worktree && repo.world.reaches(branch, k)
  {
  }

  /**
   * The inner loop of `get_deletable_branches`: `branch` joins the set of
   * every unprotected branch of `merged` other than itself, the set being
   * created on first use.
   */
  method InsertMerged(toDelete: map<string, set<string>>, protectedBranches: set<string>,
                      branch: string, merged: seq<string>) returns (r: map<string, set<string>>)
    ensures forall k :: k in r <==> k in toDelete || (k in merged && k !in protectedBranches && k != branch)
    ensures forall k :: k in r ==>
              r[k] == (if k in toDelete then toDelete[k] else {})
                      + (if k in merged && k !in protectedBranches && k != branch then {branch} else {})
  {
    r := toDelete;
    for j := 0 to |merged|
      invariant forall k :: k in r <==> k in toDelete || (k in merged[..j] && k !in protectedBranches && k != branch)
      invariant forall k :: k in r ==>
                  r[k] == (if k in toDelete then toDelete[k] else {})
                          + (if k in merged[..j] && k !in protectedBranches && k != branch then {branch} else {})
    {
      assert merged[..j + 1] == merged[..j] + [merged[j]];
      var mergedBranch := merged[j];
      if mergedBranch in protectedBranches {
        continue;
      }
      if branch == mergedBranch {
        continue;
      }
      var entry := if mergedBranch in r then r[mergedBranch] else {};
      r := r[mergedBranch := entry + {branch}];
    }
    assert merged[..|merged|] == merged;
  }

  /**
   * `get_deletable_branches`: the map from each unprotected branch named in
   * the merged list of another listed branch to the set of those branches. The
   * first failure to list merged branches is returned, with no partial map.
   */
  method GetDeletableBranches(excluded: seq<string>, repo: Repository, branches: seq<string>)
    returns (r: Result<map<string, set<string>>, GitError>)
    requires repo.Valid()
    ensures r.Ok? <==> forall b :: b in branches ==> repo.MergedAnswer(b).Ok?
    ensures r.Err? ==> exists i :: 0 <= i < |branches| && repo.MergedAnswer(branches[i]) == Err(r.error)
                          && forall j :: 0 <= j < i ==> repo.MergedAnswer(branches[j]).Ok?
    ensures r.Ok? ==> MergersMap(repo, excluded, branches, r.value)
    ensures r.Ok? ==> forall k :: k in r.value ==> k != "master" && k !in excluded && k !in r.value[k]
  {
    var protectedBranches := GetProtectedBranches(excluded);
    var toDelete: map<string, set<string>> := map[];
    for i := 0 to |branches|
      invariant forall b :: b in branches[..i] ==> repo.MergedAnswer(b).Ok?
      invariant MergersMap(repo, excluded, branches[..i], toDelete)
    {
      var step := AddMergedOf(excluded, repo, branches[..i], branches[i], protectedBranches, toDelete);
      if step.Err? {
        r := Err(step.error);
        FirstFailure(repo, branches, i, r);
        return;
      }
      assert branches[..i + 1] == branches[..i] + [branches[i]];
      toDelete := step.value;
    }
    assert branches[..|branches|] == branches;
    MergersMapKeys(repo, excluded, branches, toDelete);
    return Ok(toDelete);
  }

  /** The `i`th branch is the first whose merged list cannot be read. */
  lemma FirstFailure<T>(repo: Repository, branches: seq<string>, i: int, r: Result<T, GitError>)
    requires r.Err? && 0 <= i < |branches| && repo.MergedAnswer(branches[i]) == Err(r.error)
    requires forall b :: b in branches[..i] ==> repo.MergedAnswer(b).Ok?
    ensures r.Ok? <==> forall b :: b in branches ==> repo.MergedAnswer(b).Ok?
    ensures r.Err? ==> exists i :: 0 <= i < |branches| && repo.MergedAnswer(branches[i]) == Err(r.error)
                          && forall j :: 0 <= j < i ==> repo.MergedAnswer(branches[j]).Ok?
  {
    assert branches[i] in branches;
    assert forall j :: 0 <= j < i ==> branches[j] in branches[..i];
  }

  /** One round of the outer loop of `get_deletable_branches`: `?` on the merged list, then the inner loop. */
  method AddMergedOf(excluded: seq<string>, repo: Repository, done: seq<string>, branch: string,
                     protectedBranches: set<string>, toDelete: map<string, set<string>>)
    returns (r: Result<map<string, set<string>>, GitError>)
    requires repo.Valid()
    requires forall x :: x in protectedBranches <==> x == "master" || x in excluded
    requires MergersMap(repo, excluded, done, toDelete)
    ensures r.Ok? <==> repo.MergedAnswer(branch).Ok?
    ensures r.Err? ==> repo.MergedAnswer(branch) == Err(r.error)
    ensures r.Ok? ==> MergersMap(repo, excluded, done + [branch], r.value)
  {
    var merged := repo.ListMergedBranches(branch);
    if merged.Err? {
      return Err(merged.error);
    }
    var next := InsertMerged(toDelete, protectedBranches, branch, merged.value);
    MergersMapStep(repo, excluded, done, branch, protectedBranches, toDelete, next);
    return Ok(next);
  }

  /** No protected branch is a key of the map, and no branch contains itself. */
  lemma MergersMapKeys(repo: Repository, excluded: seq<string>, bs: seq<string>, m: map<string, set<string>>)
    requires MergersMap(repo, excluded, bs, m)
    ensures forall k :: k in m ==> k != "master" && k !in excluded && k !in m[k]
  {
    forall k | k in m ensures k != "master" && k !in excluded && k !in m[k] {
      assert Mergers(repo, excluded, bs, k) != {};
    }
  }

  // ------------------------------------------------------------ pruning

  /**
   * The pruning in `remove_merged_branches`: the keys are collected, then
   * every key is removed from every container set. The keys stay, and a set
   * may become empty.
   */
  method PruneCoCandidates(toDelete: map<string, set<string>>) returns (pruned: map<string, set<string>>)
    ensures pruned.Keys == toDelete.Keys
    ensures forall k :: k in pruned ==> pruned[k] == toDelete[k] - toDelete.Keys
    ensures forall k, d :: k in pruned && d in pruned[k] ==> d !in pruned
  {
    var deletableBranches: set<string> := {};
    var keys := toDelete.Keys;
    while keys != {}
      invariant keys <= toDelete.Keys
      invariant deletableBranches == toDelete.Keys - keys
      decreases keys
    {
      var k :| k in keys;
      deletableBranches := deletableBranches + {k};
      keys := keys - {k};
    }
    pruned := toDelete;
    var entries := toDelete.Keys;
    while entries != {}
      invariant entries <= toDelete.Keys
      invariant pruned.Keys == toDelete.Keys
      invariant forall k :: k in pruned ==>
                  pruned[k] == if k in entries then toDelete[k] else toDelete[k] - deletableBranches
      decreases entries
    {
      var k :| k in entries;
      var containedIn := pruned[k];
      var rest := deletableBranches;
      while rest != {}
        invariant rest <= deletableBranches
        invariant containedIn == toDelete[k] - (deletableBranches - rest)
        decreases rest
      {
        var d :| d in rest;
        containedIn := containedIn - {d};
        rest := rest - {d};
      }
      pruned := pruned[k := containedIn];
      entries := entries - {k};
    }
  }

  /**
   * Two unprotected branches at the same commit, each in the other's merged
   * list and in no other: the pruning leaves both with an empty set, and the
   * `unwrap` of the deletion loop panics on whichever is selected.
   */
  lemma SameCommitBranchesLoseTheirContainers(repo: Repository, pruned: map<string, set<string>>)
    requires repo.branches == ["master", "topic", "fix"] && repo.world.worktree == {}
    requires forall q :: repo.world.queryFault(q).None?
    requires forall x, y :: repo.world.reaches(x, y) <==> y == "master" || x != "master"
    requires pruned.Keys == {"topic", "fix"}
    requires forall k :: k in pruned ==> pruned[k] == Mergers(repo, [], repo.branches, k) - pruned.Keys
    ensures Mergers(repo, [], repo.branches, "topic") == {"fix"}
    ensures Mergers(repo, [], repo.branches, "fix") == {"topic"}
    ensures Mergers(repo, [], repo.branches, "master") == {}
    ensures pruned["topic"] == {} && pruned["fix"] == {}
  {
    TwinMergers(repo, "topic", "fix");
    TwinMergers(repo, "fix", "topic");
  }

  /** In that repository, the only merger of either branch is the other one. */
  lemma TwinMergers(repo: Repository, k: string, other: string)
    requires repo.branches == ["master", "topic", "fix"] && repo.world.worktree == {}
    requires forall q :: repo.world.queryFault(q).None?
    requires forall x, y :: repo.world.reaches(x, y) <==> y == "master" || x != "master"
    requires (k, other) == ("topic", "fix") || (k, other) == ("fix", "topic")
    ensures Mergers(repo, [], repo.branches, k) == {other}
  {
    forall b ensures b in Mergers(repo, [], repo.branches, k) <==> b == other {
      if b in repo.branches {
        MergedOfMeaning(repo, b, k);
      }
    }
  }

  /**
   * The pruning the deletion loop needs: container sets left empty are
   * dropped with their key, so every selected branch keeps a container, and
   * no container is itself a candidate.
   */
  function PruneKeepingContained(toDelete: map<string, set<string>>): (r: map<string, set<string>>)
    ensures r.Keys <= toDelete.Keys
    ensures forall k :: k in toDelete ==> (k in r <==> toDelete[k] - toDelete.Keys != {})
    ensures forall k :: k in r ==> r[k] != {} && r[k] <= toDelete[k]
    ensures forall k, d :: k in r && d in r[k] ==> d !in toDelete
  {
    map k | k in toDelete && toDelete[k] - toDelete.Keys != {} :: toDelete[k] - toDelete.Keys
  }

  // ------------------------------------------------------------ selection

  /**
   * `select_branches_to_delete`: the user ticks items of the candidate list;
   * `picks` are the names of the ticked items in the order `tui::select`
   * returns them. `tui::select` returns distinct indices into that list, so
   * the program's picks are distinct candidates. The model is deliberately
   * more general: it accepts any names, keeps repeats, and drops a name that
   * is not a candidate.
   */
  function SelectBranchesToDelete(toDelete: map<string, set<string>>, picks: seq<string>): (r: seq<string>)
    ensures forall b :: b in r <==> b in picks && b in toDelete
    ensures IsSubsequence(r, picks)
  {
    if picks == [] then []
    else
      var rest := SelectBranchesToDelete(toDelete, picks[1..]);
      assert picks == [picks[0]] + picks[1..];
      if picks[0] in toDelete then
        assert ([picks[0]] + rest)[1..] == rest;
        [picks[0]] + rest
      else rest
  }

  /** The container sets of the selected branches, in order. */
  function ContainerSets(toDelete: map<string, set<string>>, selected: seq<string>): (r: seq<set<string>>)
    requires forall b :: b in selected ==> b in toDelete
    ensures |r| == |selected| && forall i :: 0 <= i < |selected| ==> r[i] == toDelete[selected[i]]
  {
    seq(|selected|, i requires 0 <= i < |selected| => toDelete[selected[i]])
  }

  // ----------------------------------------------------------- the loops

  /**
   * The deletion loop of `remove_merged_branches` and the drop of its
   * restorer: `to_delete[branch]` for each selected branch, its first element
   * checked out and the branch deleted. An empty set panics at `unwrap`; the
   * restorer still checks the original branch out while the panic unwinds.
   * `processed` counts the branches handled before the end or the panic.
   */
  method DeleteSelected(repo: Repository, toDelete: map<string, set<string>>, selected: seq<string>,
                        restorer: BranchRestorer)
    returns (outcome: Outcome, ghost processed: nat, ghost body: seq<Op>, ghost restoredOk: bool)
    requires repo.Valid() && repo.CurrentBranchAnswer().Some? && restorer.repository == repo
    requires forall b :: b in selected ==> b in toDelete
    requires forall k, c :: k in toDelete && c in toDelete[k] ==> c !in toDelete && repo.world.reaches(c, k)
    modifies repo
    ensures repo.Valid() && repo.CurrentBranchAnswer().Some?
    ensures processed <= |selected|
    ensures forall j :: 0 <= j < processed ==> toDelete[selected[j]] != {}
    ensures outcome.Done? <==> processed == |selected|
    ensures !outcome.Done? ==> outcome.Panicked? && toDelete[selected[processed]] == {}
    ensures repo.log == old(repo.log) + body + [CheckoutOp(restorer.branch, restoredOk)]
    ensures DeletionTrace(selected[..processed], ContainerSets(toDelete, selected)[..processed], body)
    ensures forall op :: op in body ==> !op.FetchOp? && !op.MergeOp?
    ensures OnlyRemoved(old(repo.branches), repo.branches)
    ensures forall b :: b in old(repo.branches) && b !in repo.branches ==> b in selected
    ensures Witnessed(repo.world, old(repo.branches), repo.branches, toDelete.Keys)
  {
    ghost var containers := ContainerSets(toDelete, selected);
    outcome, processed, body := DeleteUntilEmpty(repo, toDelete, selected);
    restoredOk := repo.NextFault().None? && restorer.branch in repo.branches
                  && restorer.branch !in repo.world.worktree;
    restorer.Drop();
    DeletionTraceDeletes(selected[..processed], containers[..processed], body);
  }

  /** The loop of `DeleteSelected`, up to its end or to the first empty container set. */
  method DeleteUntilEmpty(repo: Repository, toDelete: map<string, set<string>>, selected: seq<string>)
    returns (outcome: Outcome, processed: nat, ghost body: seq<Op>)
    requires repo.Valid() && repo.CurrentBranchAnswer().Some?
    requires forall b :: b in selected ==> b in toDelete
    requires forall k, c :: k in toDelete && c in toDelete[k] ==> c !in toDelete && repo.world.reaches(c, k)
    modifies repo
    ensures repo.Valid() && repo.CurrentBranchAnswer().Some?
    ensures processed <= |selected|
    ensures forall j :: 0 <= j < processed ==> toDelete[selected[j]] != {}
    ensures outcome.Done? <==> processed == |selected|
    ensures !outcome.Done? ==> outcome.Panicked? && toDelete[selected[processed]] == {}
    ensures repo.log == old(repo.log) + body
    ensures DeletionTrace(selected[..processed], ContainerSets(toDelete, selected)[..processed], body)
    ensures Deleted(repo.world, old(repo.branches), repo.branches, toDelete.Keys, selected[..processed])
  {
    body := [];
    var i := 0;
    ghost var w := repo.world;
    ghost var start := repo.log;
    ghost var containers := ContainerSets(toDelete, selected);
    outcome := Done;
    while i < |selected|
      invariant i <= |selected|
      invariant repo.Valid() && repo.CurrentBranchAnswer().Some?
      invariant repo.log == start + body
      invariant forall j :: 0 <= j < i ==> toDelete[selected[j]] != {}
      invariant DeletionTrace(selected[..i], containers[..i], body)
      invariant Deleted(w, old(repo.branches), repo.branches, toDelete.Keys, selected[..i])
    {
      if toDelete[selected[i]] == {} {
        return Panicked, i, body;
      }
      body := DeleteNext(repo, toDelete, selected, i, old(repo.branches), start, body);
      i := i + 1;
    }
    processed := i;
  }

  /** One round of the loop of `DeleteUntilEmpty`, on a branch whose container set is not empty. */
  method DeleteNext(repo: Repository, toDelete: map<string, set<string>>, selected: seq<string>, i: nat,
                    ghost before: seq<string>, ghost start: seq<Op>, ghost body: seq<Op>)
    returns (ghost next: seq<Op>)
    requires repo.Valid() && repo.CurrentBranchAnswer().Some?
    requires forall b :: b in selected ==> b in toDelete
    requires forall k, c :: k in toDelete && c in toDelete[k] ==> c !in toDelete && repo.world.reaches(c, k)
    requires i < |selected| && toDelete[selected[i]] != {}
    requires repo.log == start + body
    requires DeletionTrace(selected[..i], ContainerSets(toDelete, selected)[..i], body)
    requires Deleted(repo.world, before, repo.branches, toDelete.Keys, selected[..i])
    modifies repo
    ensures repo.Valid() && repo.CurrentBranchAnswer().Some?
    ensures repo.log == start + next
    ensures DeletionTrace(selected[..i + 1], ContainerSets(toDelete, selected)[..i + 1], next)
    ensures Deleted(repo.world, before, repo.branches, toDelete.Keys, selected[..i + 1])
  {
    ghost var containers := ContainerSets(toDelete, selected);
    var branch := selected[i];
    var containedIn := toDelete[branch];
    assert selected[..i + 1] == selected[..i] + [branch];
    assert containers[..i + 1] == containers[..i] + [containedIn];
    ghost var mid := repo.branches;
    var deleted, container, step := DeleteOne(repo, branch, containedIn);
    LogAppend(start, body, step);
    DeletionTraceStep(selected[..i], containers[..i], body, branch, containedIn, step);
    next := body + step;
    DeletedStep(repo.world, before, mid, repo.branches, toDelete, selected[..i], branch, container, deleted);
  }

  /**
   * What the deletion loop has done to the branches `before` it, once it has
   * handled the branches `done`: it only removed branches of `done`, each kept
   * reachable from a remaining branch that is not a candidate.
   */
  ghost predicate Deleted(w: World, before: seq<string>, after: seq<string>, keys: set<string>, done: seq<string>) {
    OnlyRemoved(before, after)
    && (forall b :: b in before && b !in after ==> b in done)
    && Witnessed(w, before, after, keys)
  }

  /** One round of the deletion loop: `branch` deleted, or not, after checking out `container`. */
  lemma DeletedStep(w: World, before: seq<string>, mid: seq<string>, after: seq<string>,
                    toDelete: map<string, set<string>>, done: seq<string>, branch: string, container: string, deleted: bool)
    requires forall k, c :: k in toDelete && c in toDelete[k] ==> c !in toDelete && w.reaches(c, k)
    requires Deleted(w, before, mid, toDelete.Keys, done)
    requires branch in toDelete && container in toDelete[branch]
    requires deleted ==> container in mid && after == Remove(mid, branch)
    requires !deleted ==> after == mid
    ensures Deleted(w, before, after, toDelete.Keys, done + [branch])
  {
    if deleted {
      DeleteKeepsWitnessed(w, before, mid, toDelete.Keys, branch, container);
    }
  }

  /**
   * `candidates` is the merged-into map of the branches `bs` with the
   * co-candidates pruned out of every set: its keys are the branches some
   * other listed branch merges, and each maps to those of its mergers that are
   * not keys themselves.
   */
  ghost predicate Pruned(repo: Repository, excluded: seq<string>, bs: seq<string>, candidates: map<string, set<string>>)
    reads repo`branches
  {
    (forall k :: k in candidates <==> Mergers(repo, excluded, bs, k) != {})
    && (forall k :: k in candidates ==> candidates[k] == Mergers(repo, excluded, bs, k) - candidates.Keys)
  }

  /**
   * How the deletion loop over `selected` ended, `processed` branches in:
   * `Done` after the last, or a panic at the first whose set is empty.
   */
  ghost predicate LoopEnded(candidates: map<string, set<string>>, selected: seq<string>, outcome: Outcome, processed: nat)
    requires forall b :: b in selected ==> b in candidates
  {
    processed <= |selected|
    && (forall j :: 0 <= j < processed ==> candidates[selected[j]] != {})
    && (outcome == Done <==> processed == |selected|)
    && (outcome != Done ==> outcome == Panicked && candidates[selected[processed]] == {})
  }

  /**
   * What `remove_merged_branches` decides once git has listed the branches as
   * `bs` and answered every merged query, when it names a current branch: the
   * pruned map `candidates`, the user's pick `selected` of it, and the end of
   * the deletion loop.
   */
  ghost predicate RemovalDecided(repo: Repository, excluded: seq<string>, bs: seq<string>, picks: seq<string>,
                                 outcome: Outcome, candidates: map<string, set<string>>, selected: seq<string>,
                                 processed: nat)
    reads repo`branches
  {
    Pruned(repo, excluded, bs, candidates)
    && selected == (if candidates == map[] then [] else SelectBranchesToDelete(candidates, picks))
    && LoopEnded(candidates, selected, outcome, processed)
  }

  /**
   * `remove_merged_branches`: list the branches, build the merged-into map,
   * prune it, let the user select, then delete. `candidates` is the pruned map
   * and `selected` the selection; only selected, hence unprotected, branches
   * are deleted, and each deleted branch is contained in a branch that stays.
   */
  method RemoveMergedBranches(excluded: seq<string>, repo: Repository, picks: seq<string>)
    returns (outcome: Outcome, ghost candidates: map<string, set<string>>, ghost selected: seq<string>,
             ghost processed: nat, ghost body: seq<Op>, ghost restoredOk: bool)
    requires repo.Valid()
    modifies repo
    ensures repo.Valid()
    ensures old(repo.CurrentBranchAnswer()).Some? ==> repo.CurrentBranchAnswer().Some?
    ensures Extends(old(repo.log), repo.log)
    ensures NoFetchSince(repo.log, |old(repo.log)|) && NoMergeSince(repo.log, |old(repo.log)|)
    ensures OnlyRemoved(old(repo.branches), repo.branches)
    ensures forall b :: b in old(repo.branches) && b !in repo.branches ==>
              b in selected && b != "master" && b !in excluded
    ensures NothingLost(repo.world, old(repo.branches), repo.branches)
    ensures outcome.Failed? ==> repo.log == old(repo.log)
    ensures old(repo.BranchListAnswer()).Err? ==> outcome == Failed(old(repo.BranchListAnswer()).error)
    ensures old(repo.BranchListAnswer()).Ok? ==>
              (outcome.Failed? <==> exists b :: b in old(repo.BranchListAnswer()).value && old(repo.MergedAnswer(b)).Err?)
    ensures !outcome.Failed? ==>
              old(repo.BranchListAnswer()).Ok?
              && old(Pruned(repo, excluded, repo.BranchListAnswer().value, candidates))
              && selected == (if candidates == map[] then [] else SelectBranchesToDelete(candidates, picks))
    ensures !outcome.Failed? && selected == [] ==> outcome == Done && repo.log == old(repo.log)
    ensures !outcome.Failed? && selected != [] && old(repo.CurrentBranchAnswer()).None? ==>
              outcome == Panicked && repo.log == old(repo.log)
    ensures !outcome.Failed? && old(repo.CurrentBranchAnswer()).Some? ==> LoopEnded(candidates, selected, outcome, processed)
    ensures !outcome.Failed? && selected != [] && old(repo.CurrentBranchAnswer()).Some? ==>
              repo.log == old(repo.log) + body + [CheckoutOp(old(repo.CurrentBranchAnswer()).value, restoredOk)]
              && DeletionTrace(selected[..processed], ContainerSets(candidates, selected)[..processed], body)
  {
    candidates, selected, processed, body, restoredOk := map[], [], 0, [], false;
    var branches := repo.ListBranches();
    if branches.Err? {
      return Failed(branches.error), candidates, selected, processed, body, restoredOk;
    }
    var merged := GetDeletableBranches(excluded, repo, branches.value);
    if merged.Err? {
      return Failed(merged.error), candidates, selected, processed, body, restoredOk;
    }
    var toDelete := PruneCoCandidates(merged.value);
    candidates := toDelete;
    if toDelete == map[] {
      // "No deletable branches"
      return Done, candidates, selected, processed, body, restoredOk;
    }
    var chosen := SelectBranchesToDelete(toDelete, picks);
    selected := chosen;
    if chosen == [] {
      return Done, candidates, selected, processed, body, restoredOk;
    }
    // BranchRestorer::new panics through `expect` when git names no current branch
    var current := repo.GetCurrentBranch();
    if current.None? {
      return Panicked, candidates, selected, processed, body, restoredOk;
    }
    ContainersReach(repo, excluded, branches.value, merged.value, toDelete);
    var restorer := new BranchRestorer(repo);
    ghost var before := repo.log;
    outcome, processed, body, restoredOk := DeleteSelected(repo, toDelete, chosen, restorer);
    Appended(before, body, CheckoutOp(restorer.branch, restoredOk));

  }

  /** A container in the pruned map is not a candidate and reaches the branch it contains. */
  lemma ContainersReach(repo: Repository, excluded: seq<string>, branches: seq<string>,
                        merged: map<string, set<string>>, pruned: map<string, set<string>>)
    requires forall b :: b in branches ==> repo.MergedAnswer(b).Ok?
    requires forall k :: k in merged ==> merged[k] == Mergers(repo, excluded, branches, k)
    requires pruned.Keys == merged.Keys
    requires forall k :: k in pruned ==> pruned[k] == merged[k] - merged.Keys
    ensures forall k, c :: k in pruned && c in pruned[k] ==> c !in pruned && repo.world.reaches(c, k)
  {
    forall k, c | k in pruned && c in pruned[k] ensures repo.world.reaches(c, k) {
      MergedOfMeaning(repo, c, k);
    }
  }

  /** After the corrected pruning, every container reaches its key and is not a candidate. */
  lemma KeptContainersReach(repo: Repository, excluded: seq<string>, branches: seq<string>,
                            merged: map<string, set<string>>)
    requires forall b :: b in branches ==> repo.MergedAnswer(b).Ok?
    requires MergersMap(repo, excluded, branches, merged)
    ensures forall k, c :: k in PruneKeepingContained(merged) && c in PruneKeepingContained(merged)[k] ==>
              c !in PruneKeepingContained(merged) && repo.world.reaches(c, k)
  {
    var pruned := PruneKeepingContained(merged);
    forall k, c | k in pruned && c in pruned[k] ensures repo.world.reaches(c, k) {
      assert c in Mergers(repo, excluded, branches, k);
      MergedOfMeaning(repo, c, k);
    }
  }

  /**
   * The deletion loop over the corrected pruning: with the candidates whose
   * set became empty dropped, every selected branch has a container, so the
   * loop runs to its end instead of panicking.
   */
  method DeleteSelectedKeepingContained(repo: Repository, excluded: seq<string>, branches: seq<string>,
                                        merged: map<string, set<string>>, picks: seq<string>,
                                        restorer: BranchRestorer)
    returns (outcome: Outcome, ghost selected: seq<string>)
    requires repo.Valid() && repo.CurrentBranchAnswer().Some? && restorer.repository == repo
    requires forall b :: b in branches ==> repo.MergedAnswer(b).Ok?
    requires MergersMap(repo, excluded, branches, merged)
    modifies repo
    ensures outcome == Done
    ensures selected == SelectBranchesToDelete(PruneKeepingContained(merged), picks)
    ensures forall b :: b in selected ==> b in merged && merged[b] - merged.Keys != {}
    ensures OnlyRemoved(old(repo.branches), repo.branches)
    ensures forall b :: b in old(repo.branches) && b !in repo.branches ==> b in selected
    ensures Witnessed(repo.world, old(repo.branches), repo.branches, PruneKeepingContained(merged).Keys)
  {
    var pruned := PruneKeepingContained(merged);
    var chosen := SelectBranchesToDelete(pruned, picks);
    selected := chosen;
    KeptContainersReach(repo, excluded, branches, merged);
    var done, _, _, _ := DeleteSelected(repo, pruned, chosen, restorer);
    outcome := done;
  }

  /**
   * `update_tracking_branches`: as in src/app.rs, every branch tracking
   * `origin` is checked out and fast-forwarded, the first failed checkout
   * ending the loop, and the original branch is checked out at the end.
   */
  method UpdateTrackingBranches(repo: Repository) returns (outcome: Outcome, ghost body: seq<Op>, ghost restoredOk: bool)
    requires repo.Valid()
    modifies repo
    ensures repo.Valid()
    ensures repo.branches == old(repo.branches)
    ensures old(repo.CurrentBranchAnswer()).Some? ==> repo.CurrentBranchAnswer().Some?
    ensures Extends(old(repo.log), repo.log)
    ensures NoDeleteSince(repo.log, |old(repo.log)|) && NoFetchSince(repo.log, |old(repo.log)|)
    ensures old(repo.TrackingAnswer()).Err? ==>
              outcome == Failed(old(repo.TrackingAnswer()).error) && repo.log == old(repo.log)
    ensures old(repo.TrackingAnswer()).Ok? && old(repo.CurrentBranchAnswer()).None? ==>
              outcome == Panicked && repo.log == old(repo.log)
    ensures old(repo.TrackingAnswer()).Ok? && old(repo.CurrentBranchAnswer()).Some? ==>
              repo.log == old(repo.log) + body + [CheckoutOp(old(repo.CurrentBranchAnswer()).value, restoredOk)]
    ensures old(repo.CurrentBranchAnswer()).Some? ==>
              UpdatedAs(old(repo.TrackingAnswer()), old(repo.CurrentBranchAnswer()).value,
                        repo.log, |old(repo.log)|, old(repo.faults), outcome, body)
    ensures repo.faults == Remaining(old(repo.faults), |repo.log| - |old(repo.log)|)
  {
    body, restoredOk := [], false;
    var listed := repo.ListTrackingBranches();
    assert listed == old(repo.TrackingAnswer());
    if listed.Err? {
      return Failed(listed.error), body, restoredOk;
    }
    // BranchRestorer::new panics through `expect` when git names no current branch
    var current := repo.GetCurrentBranch();
    assert current == old(repo.CurrentBranchAnswer());
    if current.None? {
      return Panicked, body, restoredOk;
    }
    ghost var before := repo.log;
    assert repo.faults == old(repo.faults);
    outcome, body, restoredOk := UpdateEach(repo, listed.value, current.value);
    Appended(before, body, CheckoutOp(current.value, restoredOk));
  }

  /** `is_working_tree_clean`: git lists a current branch and the working tree has no changes. */
  method IsWorkingTreeClean(repo: Repository) returns (clean: bool)
    requires repo.Valid()
    ensures clean <==> repo.CurrentBranchAnswer().Some? && repo.ChangesAnswer() == Ok(false)
  {
    var current := repo.GetCurrentBranch();
    if current == None {
      return false;
    }
    var changes := repo.HasChanges();
    match changes
    case Ok(hasChanges) =>
      if hasChanges {
        return false;
      }
      return true;
    case Err(_) =>
      return false;
  }

  /** `fetch_changes`: `git fetch --prune`. */
  method FetchChanges(repo: Repository) returns (r: Result<(), GitError>)
    requires repo.Valid()
    modifies repo
    ensures repo.Valid()
    ensures r.Ok? <==> old(repo.NextFault()).None?
    ensures old(repo.NextFault()).Some? ==> r == Err(FaultError(old(repo.NextFault()).value))
    ensures repo.branches == old(repo.branches) && repo.current == old(repo.current)
    ensures repo.log == old(repo.log) + [FetchOp(r.Ok?)]
    ensures repo.faults == old(repo.LaterFaults())
  {
    r := repo.Fetch();
  }

  /**
   * `remove_merged_branches` fails on a read-only command: `git branch`, or
   * `git branch --merged` for one of the branches it lists.
   */
  ghost predicate ListingFails(w: World, bs: seq<string>) {
    w.queryFault(ListQuery).Some? || exists b :: b in Visible(w, bs) && w.queryFault(MergedQuery(b)).Some?
  }

  /** What the removal's listing answers say about `ListingFails`. */
  lemma ListingFailsAnswers(repo: Repository)
    ensures repo.BranchListAnswer().Err? ==> ListingFails(repo.world, repo.branches)
    ensures repo.BranchListAnswer().Ok? ==>
              (ListingFails(repo.world, repo.branches) <==>
                 exists b :: b in repo.BranchListAnswer().value && repo.MergedAnswer(b).Err?)
  {
  }

  /**
   * What the removal step of `runapp` gave, read in the state it started in:
   * a failure exactly when a listing fails, and otherwise the decision
   * `RemovalDecided` describes.
   */
  ghost predicate RemovedAs(repo: Repository, excluded: seq<string>, picks: seq<string>, removal: Outcome,
                            candidates: map<string, set<string>>, selected: seq<string>, processed: nat)
    reads repo`branches
  {
    (removal.Failed? <==> ListingFails(repo.world, repo.branches))
    && (!removal.Failed? ==>
          repo.BranchListAnswer().Ok?
          && RemovalDecided(repo, excluded, repo.BranchListAnswer().value, picks, removal, candidates, selected, processed))
  }

  /** A run that issued no command keeps every fact the run promises about its log and its branches. */
  lemma NothingRan(w: World, excluded: seq<string>, log: seq<Op>, branches: seq<string>)
    ensures PhaseOrdered(log, |log|) && NoDeleteSince(log, |log|)
    ensures OnlyRemoved(branches, branches) && NothingLost(w, branches, branches)
    ensures forall b :: b in branches && b !in branches ==> b != "master" && b !in excluded
  {
  }

  /**
   * `runapp`: a tree that is not clean ends the run with 1 before any
   * command; otherwise fetch, update the tracking branches and remove the
   * merged ones, the first error ending the run. `updated` and `removed` are
   * what the update and the removal gave, when they ran, `updateBody` the
   * commands of the update loop, which starts after the fetch, and
   * `candidates`, `selected` and `processed` what the removal decided. Only
   * the removal can panic, at the `unwrap` of an emptied container set.
   */
  method RunApp(excluded: seq<string>, picks: seq<string>, repo: Repository)
    returns (exit: Exit, ghost updated: Option<Outcome>, ghost removed: Option<Outcome>, ghost updateBody: seq<Op>,
             ghost candidates: map<string, set<string>>, ghost selected: seq<string>, ghost processed: nat)
    requires repo.Valid()
    modifies repo
    ensures repo.Valid()
    ensures exit == NotClean <==> !(old(repo.CurrentBranchAnswer()).Some? && old(repo.ChangesAnswer()) == Ok(false))
    ensures exit == NotClean ==> repo.log == old(repo.log)
    ensures exit != NotClean && old(repo.NextFault()).Some? ==>
              exit == Error(FaultError(old(repo.NextFault()).value)) && repo.log == old(repo.log) + [FetchOp(false)]
    ensures updated.Some? <==> exit != NotClean && old(repo.NextFault()).None?
    ensures updated.Some? ==>
              old(repo.CurrentBranchAnswer()).Some?
              && UpdatedAs(old(repo.TrackingAnswer()), old(repo.CurrentBranchAnswer()).value,
                           repo.log, |old(repo.log)| + 1, old(repo.LaterFaults()), updated.value, updateBody)
    ensures removed.Some? ==> old(RemovedAs(repo, excluded, picks, removed.value, candidates, selected, processed))
    ensures ExitChain(exit, updated, removed)
    ensures exit == Crash <==> removed == Some(Panicked)
    ensures exit != NotClean ==> |repo.log| > |old(repo.log)| && repo.log[|old(repo.log)|].FetchOp?
    ensures PhaseOrdered(repo.log, |old(repo.log)|)
    ensures exit.Error? ==> NoDeleteSince(repo.log, |old(repo.log)|)
    ensures OnlyRemoved(old(repo.branches), repo.branches)
    ensures forall b :: b in old(repo.branches) && b !in repo.branches ==> b != "master" && b !in excluded
    ensures NothingLost(repo.world, old(repo.branches), repo.branches)
  {
    updated, removed, updateBody, candidates, selected, processed := None, None, [], map[], [], 0;
    var clean := IsWorkingTreeClean(repo);
    if !clean {
      NothingRan(repo.world, excluded, repo.log, repo.branches);
      return NotClean, updated, removed, updateBody, candidates, selected, processed;
    }
    exit, updated, removed, updateBody, candidates, selected, processed := FetchUpdateRemove(excluded, picks, repo);
  }

  /**
   * `runapp` after the clean check: fetch, then update the tracking branches
   * and remove the merged ones, the first error ending the run.
   */
  method FetchUpdateRemove(excluded: seq<string>, picks: seq<string>, repo: Repository)
    returns (exit: Exit, ghost updated: Option<Outcome>, ghost removed: Option<Outcome>, ghost updateBody: seq<Op>,
             ghost candidates: map<string, set<string>>, ghost selected: seq<string>, ghost processed: nat)
    requires repo.Valid() && repo.CurrentBranchAnswer().Some?
    modifies repo
    ensures repo.Valid()
    ensures old(repo.NextFault()).Some? ==>
              exit == Error(FaultError(old(repo.NextFault()).value)) && repo.log == old(repo.log) + [FetchOp(false)]
    ensures updated.Some? <==> old(repo.NextFault()).None?
    ensures updated.Some? ==>
              UpdatedAs(old(repo.TrackingAnswer()), old(repo.CurrentBranchAnswer()).value,
                        repo.log, |old(repo.log)| + 1, old(repo.LaterFaults()), updated.value, updateBody)
    ensures removed.Some? ==> old(RemovedAs(repo, excluded, picks, removed.value, candidates, selected, processed))
    ensures ExitChain(exit, updated, removed)
    ensures exit == Crash <==> removed == Some(Panicked)
    ensures |repo.log| > |old(repo.log)| && repo.log[|old(repo.log)|].FetchOp?
    ensures PhaseOrdered(repo.log, |old(repo.log)|)
    ensures exit.Error? ==> NoDeleteSince(repo.log, |old(repo.log)|)
    ensures OnlyRemoved(old(repo.branches), repo.branches)
    ensures forall b :: b in old(repo.branches) && b !in repo.branches ==> b != "master" && b !in excluded
    ensures NothingLost(repo.world, old(repo.branches), repo.branches)
  {
    updated, removed, updateBody, candidates, selected, processed := None, None, [], map[], [], 0;
    var fetched := FetchChanges(repo);
    ghost var afterFetch := repo.log;
    if fetched.Err? {
      exit := Error(fetched.error);
    } else {
      assert repo.TrackingAnswer() == old(repo.TrackingAnswer());
      assert repo.CurrentBranchAnswer() == old(repo.CurrentBranchAnswer());
      ghost var update;
      exit, update, removed, updateBody, candidates, selected, processed := UpdateThenRemove(excluded, picks, repo);
      updated := Some(update);
    }
    PhasesFetchFirst(old(repo.log), afterFetch, repo.log);
  }

  /**
   * The second half of `runapp`: update, then remove, the first error ending
   * the run. `updated` is what the update gave, `updateBody` the commands of
   * its loop, and `removed` what the removal gave, when it ran, with
   * `candidates`, `selected` and `processed` what the removal decided.
   */
  method UpdateThenRemove(excluded: seq<string>, picks: seq<string>, repo: Repository)
    returns (exit: Exit, ghost updated: Outcome, ghost removed: Option<Outcome>, ghost updateBody: seq<Op>,
             ghost candidates: map<string, set<string>>, ghost selected: seq<string>, ghost processed: nat)
    requires repo.Valid() && repo.CurrentBranchAnswer().Some?
    modifies repo
    ensures repo.Valid()
    ensures UpdatedAs(old(repo.TrackingAnswer()), old(repo.CurrentBranchAnswer()).value,
                      repo.log, |old(repo.log)|, old(repo.faults), updated, updateBody)
    ensures removed.Some? ==> old(RemovedAs(repo, excluded, picks, removed.value, candidates, selected, processed))
    ensures ExitChain(exit, Some(updated), removed)
    ensures Extends(old(repo.log), repo.log)
    ensures NoFetchSince(repo.log, |old(repo.log)|) && PhaseOrdered(repo.log, |old(repo.log)|)
    ensures exit.Error? ==> NoDeleteSince(repo.log, |old(repo.log)|)
    ensures OnlyRemoved(old(repo.branches), repo.branches)
    ensures forall b :: b in old(repo.branches) && b !in repo.branches ==> b != "master" && b !in excluded
    ensures NothingLost(repo.world, old(repo.branches), repo.branches)
  {
    removed, candidates, selected, processed := None, map[], [], 0;
    ghost var tracking, current, start, prophecy := repo.TrackingAnswer(), repo.CurrentBranchAnswer().value, repo.log, repo.faults;
    var update, body, _ := UpdateTrackingBranches(repo);
    updated, updateBody := update, body;
    if !update.Done? {
      PhasesUpdateRemove(start, repo.log, repo.log);
      return ExitOf(update), updated, removed, updateBody, candidates, selected, processed;
    }
    ghost var afterUpdate := repo.log;
    ListingFailsAnswers(repo);
    var removal, decided, picked, handled, _, _ := RemoveMergedBranches(excluded, repo, picks);
    candidates, selected, processed := decided, picked, handled;
    removed := Some(removal);
    UpdatedAsExtends(tracking, current, afterUpdate, repo.log, |start|, prophecy, update, body);
    PhasesUpdateRemove(start, afterUpdate, repo.log);
    return ExitOf(removal), updated, removed, updateBody, candidates, selected, processed;
  }
}
