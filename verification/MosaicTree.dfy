/** The tree of panes. A leaf is a pane identifier, an inner node splits the space between two trees; an
    absent tree is an empty workspace. Trees are values: rebuilding a node whose children did not change
    gives the same tree. */
module MosaicTree {
  import opened Wrappers

  const MAX_TERMINAL_PANES: nat := 9

  datatype Direction = Row | Column

  datatype Tree =
    | Leaf(id: string)
    | Split(direction: Direction, first: Tree, second: Tree, percentage: real)

  /** The leaves of a tree, left to right. */
  function LeavesOf(tree: Tree): (leaves: seq<string>)
    ensures leaves != []
  {
    match tree
    case Leaf(id) => [id]
    case Split(_, first, second, _) => LeavesOf(first) + LeavesOf(second)
  }

  function GetLeaves(tree: Option<Tree>): seq<string> {
    if tree.None? then [] else LeavesOf(tree.value)
  }

  function CountLeaves(tree: Option<Tree>): nat {
    |GetLeaves(tree)|
  }

  /** The parent of two trees of which either may have vanished. */
  function Join(tree: Tree, first: Option<Tree>, second: Option<Tree>): Option<Tree>
    requires tree.Split?
  {
    if first.Some? && second.Some? then Some(tree.(first := first.value, second := second.value))
    else if first.Some? then first
    else second
  }

  function AddPane(tree: Tree, leafId: string, newId: string, direction: Direction): Tree {
    match tree
    case Leaf(id) => if id == leafId then Split(direction, tree, Leaf(newId), 50.0) else tree
    case Split(_, first, second, _) =>
      tree.(first := AddPane(first, leafId, newId, direction), second := AddPane(second, leafId, newId, direction))
  }

  function RemovePane(tree: Tree, id: string): Option<Tree> {
    match tree
    case Leaf(leaf) => if leaf == id then None else Some(tree)
    case Split(_, first, second, _) => Join(tree, RemovePane(first, id), RemovePane(second, id))
  }

  function PruneLeaves(tree: Tree, valid: set<string>): Option<Tree> {
    match tree
    case Leaf(leaf) => if leaf in valid then Some(tree) else None
    case Split(_, first, second, _) => Join(tree, PruneLeaves(first, valid), PruneLeaves(second, valid))
  }

  // ----- What the operations mean on the sequence of leaves -----

  function Keep(leaves: seq<string>, keep: string -> bool): seq<string> {
    if leaves == [] then []
    else if keep(leaves[0]) then [leaves[0]] + Keep(leaves[1..], keep)
    else Keep(leaves[1..], keep)
  }

  function OtherThan(id: string): string -> bool {
    x => x != id
  }

  function Among(valid: set<string>): string -> bool {
    x => x in valid
  }

  lemma {:induction false} KeepAppend(a: seq<string>, b: seq<string>, keep: string -> bool)
    ensures Keep(a + b, keep) == Keep(a, keep) + Keep(b, keep)
  {
    if a == [] {
      assert a + b == b;
    } else {
      KeepAppend(a[1..], b, keep);
      assert (a + b)[1..] == a[1..] + b;
      var x, y := Keep(a[1..], keep), Keep(b, keep);
      assert [a[0]] + (x + y) == ([a[0]] + x) + y;
    }
  }

  lemma {:induction false} KeepMember(leaves: seq<string>, keep: string -> bool, x: string)
    ensures x in Keep(leaves, keep) <==> x in leaves && keep(x)
  {
    if leaves != [] {
      KeepMember(leaves[1..], keep, x);
      assert leaves == [leaves[0]] + leaves[1..];
    }
  }

  lemma {:induction false} KeepAll(leaves: seq<string>, keep: string -> bool)
    requires forall x :: x in leaves ==> keep(x)
    ensures Keep(leaves, keep) == leaves
  {
    if leaves != [] {
      assert leaves[0] in leaves;
      assert forall x :: x in leaves[1..] ==> x in leaves;
      KeepAll(leaves[1..], keep);
      assert leaves == [leaves[0]] + leaves[1..];
    }
  }

  ghost predicate Distinct(leaves: seq<string>) {
    forall i, j :: 0 <= i < j < |leaves| ==> leaves[i] != leaves[j]
  }

  lemma {:induction false} KeepDistinct(leaves: seq<string>, keep: string -> bool)
    requires Distinct(leaves)
    ensures Distinct(Keep(leaves, keep)) && |Keep(leaves, keep)| <= |leaves|
  {
    if leaves != [] {
      var rest := leaves[1..];
      KeepDistinct(rest, keep);
      KeepMember(rest, keep, leaves[0]);
      assert leaves[0] !in rest by {
        forall i | 0 <= i < |rest| ensures rest[i] != leaves[0] {
          assert rest[i] == leaves[i + 1];
        }
      }
      var kept := Keep(leaves, keep);
      if keep(leaves[0]) {
        assert kept[1..] == Keep(rest, keep);
        forall i, j | 0 <= i < j < |kept| ensures kept[i] != kept[j] {
          assert kept[j] == kept[1..][j - 1];
          assert kept[j] in kept[1..];
          assert i > 0 ==> kept[i] == kept[1..][i - 1];
        }
      }
    }
  }

  /** Pruning keeps exactly the valid leaves, in order, and keeps a fully valid tree as it is. */
  lemma {:induction false} PruneMeaning(tree: Tree, valid: set<string>)
    ensures GetLeaves(PruneLeaves(tree, valid)) == Keep(LeavesOf(tree), Among(valid))
    ensures (forall x :: x in LeavesOf(tree) ==> x in valid) ==> PruneLeaves(tree, valid) == Some(tree)
  {
    match tree
    case Leaf(_) =>
    case Split(_, first, second, _) =>
      PruneMeaning(first, valid);
      PruneMeaning(second, valid);
      KeepAppend(LeavesOf(first), LeavesOf(second), Among(valid));
  }

  /** Removing a pane removes exactly its leaves, in order, and keeps a tree without it as it is. */
  lemma {:induction false} RemoveMeaning(tree: Tree, id: string)
    ensures GetLeaves(RemovePane(tree, id)) == Keep(LeavesOf(tree), OtherThan(id))
    ensures id !in LeavesOf(tree) ==> RemovePane(tree, id) == Some(tree)
  {
    match tree
    case Leaf(_) =>
    case Split(_, first, second, _) =>
      RemoveMeaning(first, id);
      RemoveMeaning(second, id);
      KeepAppend(LeavesOf(first), LeavesOf(second), OtherThan(id));
  }

  /** Replacing every occurrence of an identifier by a sequence. */
  function Substitute(leaves: seq<string>, id: string, middle: seq<string>): seq<string> {
    if leaves == [] then []
    else (if leaves[0] == id then middle else [leaves[0]]) + Substitute(leaves[1..], id, middle)
  }

  lemma SubstituteFirst(x: string, rest: seq<string>, id: string, middle: seq<string>)
    ensures Substitute([], id, middle) == []
    ensures Substitute([x] + rest, id, middle) == (if x == id then middle else [x]) + Substitute(rest, id, middle)
  {
    assert ([x] + rest)[1..] == rest;
  }

  lemma {:induction false} SubstituteAppend(a: seq<string>, b: seq<string>, id: string, middle: seq<string>)
    ensures Substitute(a + b, id, middle) == Substitute(a, id, middle) + Substitute(b, id, middle)
  {
    hide Substitute;
    if a == [] {
      SubstituteFirst("", b, id, middle);
      assert a + b == b;
    } else {
      var rest := a[1..];
      SubstituteAppend(rest, b, id, middle);
      SubstituteFirst(a[0], rest, id, middle);
      SubstituteFirst(a[0], rest + b, id, middle);
      assert a == [a[0]] + rest && a + b == [a[0]] + (rest + b);
    }
  }

  lemma {:induction false} SubstituteAbsent(leaves: seq<string>, id: string, middle: seq<string>)
    requires id !in leaves
    ensures Substitute(leaves, id, middle) == leaves
  {
    if leaves != [] {
      SubstituteAbsent(leaves[1..], id, middle);
      assert leaves == [leaves[0]] + leaves[1..];
    }
  }

  /** In a sequence without repetitions the one occurrence is replaced in place. */
  lemma SubstituteOnce(leaves: seq<string>, k: nat, middle: seq<string>)
    requires Distinct(leaves) && k < |leaves|
    ensures Substitute(leaves, leaves[k], middle) == leaves[..k] + middle + leaves[k + 1..]
  {
    assert leaves == leaves[..k] + [leaves[k]] + leaves[k + 1..];
    SubstituteAppend(leaves[..k] + [leaves[k]], leaves[k + 1..], leaves[k], middle);
    SubstituteAppend(leaves[..k], [leaves[k]], leaves[k], middle);
    SubstituteAbsent(leaves[..k], leaves[k], middle);
    SubstituteAbsent(leaves[k + 1..], leaves[k], middle);
    assert Substitute([leaves[k]], leaves[k], middle) == middle + Substitute([], leaves[k], middle);
  }

  /** Splitting a leaf puts the new pane right after it, and a missing leaf changes nothing. */
  lemma {:induction false} AddMeaning(tree: Tree, leafId: string, newId: string, direction: Direction)
    ensures LeavesOf(AddPane(tree, leafId, newId, direction)) == Substitute(LeavesOf(tree), leafId, [leafId, newId])
    ensures leafId !in LeavesOf(tree) ==> AddPane(tree, leafId, newId, direction) == tree
  {
    match tree
    case Leaf(_) =>
    case Split(_, first, second, _) =>
      AddMeaning(first, leafId, newId, direction);
      AddMeaning(second, leafId, newId, direction);
      SubstituteAppend(LeavesOf(first), LeavesOf(second), leafId, [leafId, newId]);
  }

  /** Removing the pane that a split added gives the tree back. */
  lemma {:induction false} RemoveUndoesAdd(tree: Tree, leafId: string, newId: string, direction: Direction)
    requires newId !in LeavesOf(tree)
    ensures RemovePane(AddPane(tree, leafId, newId, direction), newId) == Some(tree)
  {
    match tree
    case Leaf(_) =>
    case Split(_, first, second, _) =>
      RemoveUndoesAdd(first, leafId, newId, direction);
      RemoveUndoesAdd(second, leafId, newId, direction);
  }

  // ----- What the operations leave of the splits -----

  /** The split that separates two panes: its direction, its percentage, and whether the first pane comes first. */
  function DividerIn(tree: Tree, x: string, y: string): Option<(Direction, real, bool)> {
    match tree
    case Leaf(_) => None
    case Split(direction, first, second, percentage) =>
      if x in LeavesOf(first) && y in LeavesOf(first) then DividerIn(first, x, y)
      else if x in LeavesOf(second) && y in LeavesOf(second) then DividerIn(second, x, y)
      else if x in LeavesOf(first) && y in LeavesOf(second) then Some((direction, percentage, true))
      else if x in LeavesOf(second) && y in LeavesOf(first) then Some((direction, percentage, false))
      else None
  }

  function Divider(tree: Option<Tree>, x: string, y: string): Option<(Direction, real, bool)> {
    if tree.None? then None else DividerIn(tree.value, x, y)
  }

  lemma RemovedMember(tree: Tree, id: string, x: string)
    requires x != id
    ensures x in GetLeaves(RemovePane(tree, id)) <==> x in LeavesOf(tree)
  {
    RemoveMeaning(tree, id);
    KeepMember(LeavesOf(tree), OtherThan(id), x);
  }

  /** Closing a pane leaves every two other panes under the split they were under, with its direction, order and
      percentage. */
  lemma {:induction false} RemoveKeepsDividers(tree: Tree, id: string, x: string, y: string)
    requires x != id && y != id
    ensures Divider(RemovePane(tree, id), x, y) == Divider(Some(tree), x, y)
  {
    match tree
    case Leaf(_) =>
    case Split(_, first, second, _) =>
      RemoveKeepsDividers(first, id, x, y);
      RemoveKeepsDividers(second, id, x, y);
      RemovedMember(first, id, x);
      RemovedMember(first, id, y);
      RemovedMember(second, id, x);
      RemovedMember(second, id, y);
  }

  lemma PrunedMember(tree: Tree, valid: set<string>, x: string)
    requires x in valid
    ensures x in GetLeaves(PruneLeaves(tree, valid)) <==> x in LeavesOf(tree)
  {
    PruneMeaning(tree, valid);
    KeepMember(LeavesOf(tree), Among(valid), x);
  }

  /** So does pruning for every two panes that stay. */
  lemma {:induction false} PruneKeepsDividers(tree: Tree, valid: set<string>, x: string, y: string)
    requires x in valid && y in valid
    ensures Divider(PruneLeaves(tree, valid), x, y) == Divider(Some(tree), x, y)
  {
    match tree
    case Leaf(_) =>
    case Split(_, first, second, _) =>
      PruneKeepsDividers(first, valid, x, y);
      PruneKeepsDividers(second, valid, x, y);
      PrunedMember(first, valid, x);
      PrunedMember(first, valid, y);
      PrunedMember(second, valid, x);
      PrunedMember(second, valid, y);
  }
}
