/** The record the user interfaces of src/appui.rs receive for each branch that can be deleted. */
module AppUi {

  /** A branch that can be deleted, with the branches that contain it. */
  datatype BranchToDeleteInfo = BranchToDeleteInfo(name: string, containedIn: set<string>)

  /** The names of the proposals, in order: what the deletion loop iterates over. */
  function Names(infos: seq<BranchToDeleteInfo>): (names: seq<string>)
    ensures |names| == |infos| && forall i :: 0 <= i < |infos| ==> names[i] == infos[i].name
  {
    if infos == [] then [] else [infos[0].name] + Names(infos[1..])
  }

  /** The container sets of the proposals, in the same order as `Names`. */
  function Containers(infos: seq<BranchToDeleteInfo>): (sets: seq<set<string>>)
    ensures |sets| == |infos| && forall i :: 0 <= i < |infos| ==> sets[i] == infos[i].containedIn
  {
    if infos == [] then [] else [infos[0].containedIn] + Containers(infos[1..])
  }

  /** `xs` is `ys` with some elements left out. */
  predicate IsSubsequence<T(==)>(xs: seq<T>, ys: seq<T>)
    decreases |ys|
  {
    if ys == [] then xs == []
    else (xs != [] && xs[0] == ys[0] && IsSubsequence(xs[1..], ys[1..])) || IsSubsequence(xs, ys[1..])
  }

  lemma {:induction false} SubsequenceReflexive<T>(xs: seq<T>)
    ensures IsSubsequence(xs, xs)
    decreases |xs|
  {
    if xs != [] {
      SubsequenceReflexive(xs[1..]);
    }
  }
}
