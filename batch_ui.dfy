/**
 * `BatchAppUi` (src/batchappui.rs): the user interface of `--yes` runs, which
 * confirms every proposal without asking.
 */
module BatchAppUi {
  import opened Text
  import opened AppUi

  /** `select_branches_to_delete`: every proposed branch is confirmed. */
  function SelectBranchesToDelete(branchInfos: seq<BranchToDeleteInfo>): (r: seq<BranchToDeleteInfo>)
    ensures r == branchInfos
  {
    branchInfos
  }

  /** `select_identical_branches_to_delete`: every branch is confirmed. */
  function SelectIdenticalBranchesToDelete(branches: seq<string>): (r: seq<string>)
    ensures r == branches
  {
    branches
  }

  // ------------------------------------------------------------ sorting

  /** Ascending in the order of `String`. */
  predicate Sorted(s: seq<string>) {
    forall i, j :: 0 <= i < j < |s| ==> LessEq(s[i], s[j])
  }

  function Insert(x: string, s: seq<string>): (r: seq<string>)
    ensures multiset(r) == multiset(s) + multiset{x}
  {
    if s == [] || LessEq(x, s[0]) then [x] + s
    else
      assert s == [s[0]] + s[1..];
      [s[0]] + Insert(x, s[1..])
  }

  lemma {:induction false} InsertSorted(x: string, s: seq<string>)
    requires Sorted(s)
    ensures Sorted(Insert(x, s))
  {
    if s == [] {
    } else if LessEq(x, s[0]) {
      forall j | 0 <= j < |s| ensures LessEq(x, s[j]) {
        if j > 0 {
          LessEqTransitive(x, s[0], s[j]);
        }
      }
    } else {
      InsertSorted(x, s[1..]);
      var rest := Insert(x, s[1..]);
      LessEqTotal(x, s[0]);
      forall j | 0 <= j < |rest| ensures LessEq(s[0], rest[j]) {
        assert rest[j] in multiset(rest);
        if rest[j] != x {
          var k :| 0 <= k < |s[1..]| && s[1..][k] == rest[j];
          assert s[k + 1] == rest[j];
        }
      }
    }
  }

  /** `slice::sort` on strings: the same names, ascending. */
  function Sort(s: seq<string>): (r: seq<string>)
    ensures Sorted(r) && multiset(r) == multiset(s)
  {
    if s == [] then []
    else
      assert s == [s[0]] + s[1..];
      var rest := Sort(s[1..]);
      InsertSorted(s[0], rest);
      Insert(s[0], rest)
  }

  /** The least name of a non-empty list, an independent reference for the one keep-one keeps. */
  function Least(s: seq<string>): (m: string)
    requires s != []
    ensures m in s && forall b :: b in s ==> LessEq(m, b)
  {
    if |s| == 1 then
      LessEqReflexive(s[0]);
      s[0]
    else
      var m := Least(s[1..]);
      assert s == [s[0]] + s[1..];
      LessEqTotal(s[0], m);
      LessEqReflexive(s[0]);
      if LessEq(s[0], m) then
        assert forall b :: b in s[1..] ==> LessEq(s[0], b) by {
          forall b | b in s[1..] ensures LessEq(s[0], b) {
            LessEqTransitive(s[0], m, b);
          }
        }
        s[0]
      else
        m
  }

  /** Sorting puts the least name first. */
  lemma SortStartsWithLeast(s: seq<string>)
    requires s != []
    ensures |Sort(s)| == |s| && Sort(s)[0] == Least(s)
  {
    var r := Sort(s);
    assert |r| == |multiset(r)| == |multiset(s)| == |s|;
    assert r[0] in multiset(s) by {
      assert r[0] in multiset(r);
    }
    assert Least(s) in multiset(r);
    var k :| 0 <= k < |r| && r[k] == Least(s);
    if k > 0 {
      assert LessEq(r[0], r[k]);
    }
    LessEqAntisymmetric(r[0], Least(s));
  }

  /**
   * `select_identical_branches_to_delete_keep_one`: the branches sorted, less
   * the first; `remove(0)` panics on an empty list, so callers pass at least one.
   */
  method SelectIdenticalBranchesToDeleteKeepOne(branches: seq<string>) returns (toDelete: seq<string>)
    requires branches != []
    ensures |toDelete| == |branches| - 1
    ensures Sorted(toDelete)
    ensures multiset(toDelete) + multiset{Least(branches)} == multiset(branches)
  {
    toDelete := branches;
    toDelete := Sort(toDelete);
    SortStartsWithLeast(branches);
    var sorted := toDelete;
    assert sorted == [sorted[0]] + sorted[1..];
    assert multiset(sorted) == multiset{sorted[0]} + multiset(sorted[1..]);
    toDelete := toDelete[1..];
    assert Sorted(toDelete) by {
      forall i, j | 0 <= i < j < |toDelete| ensures LessEq(toDelete[i], toDelete[j]) {
        assert toDelete[i] == sorted[i + 1] && toDelete[j] == sorted[j + 1];
      }
    }
  }
}
