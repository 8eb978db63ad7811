/** Docking one pane beside another, taking a returned pane back into the workspace, and fitting a stored
    window rectangle to the displays that are connected now. */
module Docking {
  import opened Wrappers
  import opened MosaicTree

  datatype DockSide = Left | Right | Top | Bottom

  datatype PanePlacement = PanePlacement(paneId: string, side: DockSide)

  function ReplaceLeaf(tree: Tree, id: string, replacement: Tree): Tree {
    match tree
    case Leaf(leaf) => if leaf == id then replacement else tree
    case Split(_, first, second, _) =>
      tree.(first := ReplaceLeaf(first, id, replacement), second := ReplaceLeaf(second, id, replacement))
  }

  function SplitFor(target: string, source: string, side: DockSide): Tree {
    var before := side.Left? || side.Top?;
    Split(
      if side.Left? || side.Right? then Row else Column,
      Leaf(if before then source else target),
      Leaf(if before then target else source),
      50.0)
  }

  /** Moving a pane is remove and insert; a missing target, the target itself and a full workspace are no-ops. */
  function DockPane(tree: Option<Tree>, target: string, source: string, side: DockSide): Option<Tree> {
    if tree.None? then Some(Leaf(source))
    else if target == source || target !in GetLeaves(tree) then tree
    else
      var moving := source in GetLeaves(tree);
      if !moving && CountLeaves(tree) >= MAX_TERMINAL_PANES then tree
      else
        var pruned := if moving then RemovePane(tree.value, source) else tree;
        if pruned.None? then None else Some(ReplaceLeaf(pruned.value, target, SplitFor(target, source, side)))
  }

  lemma {:induction false} ReplaceMeaning(tree: Tree, id: string, replacement: Tree)
    ensures LeavesOf(ReplaceLeaf(tree, id, replacement)) == Substitute(LeavesOf(tree), id, LeavesOf(replacement))
    ensures id !in LeavesOf(tree) ==> ReplaceLeaf(tree, id, replacement) == tree
  {
    match tree
    case Leaf(_) =>
    case Split(_, first, second, _) =>
      ReplaceMeaning(first, id, replacement);
      ReplaceMeaning(second, id, replacement);
      SubstituteAppend(LeavesOf(first), LeavesOf(second), id, LeavesOf(replacement));
  }

  // ----- What docking does to the order of panes -----

  function Without(leaves: seq<string>, x: string): seq<string> {
    Keep(leaves, OtherThan(x))
  }

  function IndexOf(leaves: seq<string>, x: string): (k: nat)
    requires x in leaves
    ensures k < |leaves| && leaves[k] == x && x !in leaves[..k]
  {
    if leaves[0] == x then 0 else 1 + IndexOf(leaves[1..], x)
  }

  /** The sequence with `source` put right before or right after `target`. */
  function Beside(leaves: seq<string>, target: string, source: string, side: DockSide): seq<string>
    requires target in leaves
  {
    var k := IndexOf(leaves, target);
    if side.Left? || side.Top? then leaves[..k] + [source] + leaves[k..]
    else leaves[..k + 1] + [source] + leaves[k + 1..]
  }

  ghost predicate NoOp(tree: Option<Tree>, target: string, source: string) {
    tree.Some? && (target == source || target !in GetLeaves(tree)
                   || (source !in GetLeaves(tree) && CountLeaves(tree) >= MAX_TERMINAL_PANES))
  }

  /** Docking either changes nothing, or takes the source out of the order of panes, if it was there, and
      puts it right before (left, top) or right after (right, bottom) the target. */
  lemma DockMeaning(tree: Option<Tree>, target: string, source: string, side: DockSide)
    requires Distinct(GetLeaves(tree))
    ensures var docked := DockPane(tree, target, source, side);
            if tree.None? then GetLeaves(docked) == [source]
            else if NoOp(tree, target, source) then docked == tree
            else
              && target in Without(GetLeaves(tree), source)
              && GetLeaves(docked) == Beside(Without(GetLeaves(tree), source), target, source, side)
  {
    if tree.Some? && !NoOp(tree, target, source) {
      var leaves := GetLeaves(tree);
      KeepMember(leaves, OtherThan(source), target);
      RemoveMeaning(tree.value, source);
      KeepDistinct(leaves, OtherThan(source));
      var pruned := RemovePane(tree.value, source);
      assert DockPane(tree, target, source, side) == Some(ReplaceLeaf(pruned.value, target, SplitFor(target, source, side)));
      PlaceBeside(pruned.value, target, source, side);
    }
  }

  lemma PlaceBeside(tree: Tree, target: string, source: string, side: DockSide)
    requires Distinct(LeavesOf(tree)) && target in LeavesOf(tree)
    ensures LeavesOf(ReplaceLeaf(tree, target, SplitFor(target, source, side))) == Beside(LeavesOf(tree), target, source, side)
  {
    var leaves := LeavesOf(tree);
    ReplaceMeaning(tree, target, SplitFor(target, source, side));
    var k := IndexOf(leaves, target);
    var pair := if side.Left? || side.Top? then [source, target] else [target, source];
    assert LeavesOf(SplitFor(target, source, side)) == pair;
    SubstituteOnce(leaves, k, pair);
    PairInPlace(leaves, k, source, side.Left? || side.Top?);
  }

  lemma PairInPlace(leaves: seq<string>, k: nat, source: string, before: bool)
    requires k < |leaves|
    ensures before ==> leaves[..k] + [source, leaves[k]] + leaves[k + 1..] == leaves[..k] + [source] + leaves[k..]
    ensures !before ==> leaves[..k] + [leaves[k], source] + leaves[k + 1..] == leaves[..k + 1] + [source] + leaves[k + 1..]
  {
  }

  /** Docking keeps the panes distinct and within the bound, and loses no pane. */
  lemma DockKeepsLayout(tree: Option<Tree>, target: string, source: string, side: DockSide)
    requires Distinct(GetLeaves(tree)) && CountLeaves(tree) <= MAX_TERMINAL_PANES
    ensures var docked := DockPane(tree, target, source, side);
            && Distinct(GetLeaves(docked)) && CountLeaves(docked) <= MAX_TERMINAL_PANES
            && (forall x :: x in GetLeaves(docked) ==> x in GetLeaves(tree) || x == source)
            && (forall x :: x in GetLeaves(tree) ==> x in GetLeaves(docked))
            && (!NoOp(tree, target, source) ==> source in GetLeaves(docked))
  {
    DockMeaning(tree, target, source, side);
    if tree.Some? && !NoOp(tree, target, source) {
      var leaves := GetLeaves(tree);
      var rest := Without(leaves, source);
      KeepDistinct(leaves, OtherThan(source));
      forall x ensures x in rest <==> x in leaves && x != source {
        KeepMember(leaves, OtherThan(source), x);
      }
      WithoutIsShorter(leaves, source);
      BesideMeaning(rest, target, source, side);
    }
  }

  lemma {:induction false} WithoutIsShorter(leaves: seq<string>, x: string)
    ensures x in leaves ==> |Without(leaves, x)| < |leaves|
    ensures |Without(leaves, x)| <= |leaves|
  {
    if leaves != [] {
      WithoutIsShorter(leaves[1..], x);
      assert x in leaves ==> x == leaves[0] || x in leaves[1..];
    }
  }

  lemma BesideMeaning(leaves: seq<string>, target: string, source: string, side: DockSide)
    requires Distinct(leaves) && target in leaves && source !in leaves
    ensures var placed := Beside(leaves, target, source, side);
            && Distinct(placed) && |placed| == |leaves| + 1
            && (forall x :: x in placed <==> x in leaves || x == source)
  {
    hide Distinct;
    var k := IndexOf(leaves, target);
    var cut := if side.Left? || side.Top? then k else k + 1;
    InsertedDistinct(leaves, cut, source);
    InsertedMembers(leaves, cut, source);
  }

  lemma InsertedDistinct(leaves: seq<string>, cut: nat, x: string)
    requires Distinct(leaves) && cut <= |leaves| && x !in leaves
    ensures Distinct(leaves[..cut] + [x] + leaves[cut..])
  {
    var all := leaves[..cut] + [x] + leaves[cut..];
    forall i, j | 0 <= i < j < |all| ensures all[i] != all[j] {
      InsertedAt(leaves, cut, x, i);
      InsertedAt(leaves, cut, x, j);
    }
  }

  lemma InsertedAt(leaves: seq<string>, cut: nat, x: string, i: nat)
    requires cut <= |leaves| && i <= |leaves|
    ensures (leaves[..cut] + [x] + leaves[cut..])[i] == if i < cut then leaves[i] else if i == cut then x else leaves[i - 1]
  {
  }

  lemma InsertedMembers(leaves: seq<string>, cut: nat, x: string)
    requires cut <= |leaves|
    ensures forall y :: y in leaves[..cut] + [x] + leaves[cut..] <==> y in leaves || y == x
  {
    assert leaves == leaves[..cut] + leaves[cut..];
  }

  /** Taking the docked pane out again gives the tree without it: for a pane that was new, the same tree. */
  lemma RemoveUndoesDock(tree: Tree, target: string, source: string, side: DockSide)
    requires !NoOp(Some(tree), target, source)
    ensures DockPane(Some(tree), target, source, side).Some?
    ensures RemovePane(DockPane(Some(tree), target, source, side).value, source) == RemovePane(tree, source)
  {
    RemoveMeaning(tree, source);
    KeepMember(LeavesOf(tree), OtherThan(source), target);
    var pruned := RemovePane(tree, source).value;
    KeepMember(LeavesOf(tree), OtherThan(source), source);
    RemoveUndoesReplace(pruned, target, source, side);
  }

  lemma {:induction false} RemoveUndoesReplace(tree: Tree, target: string, source: string, side: DockSide)
    requires source !in LeavesOf(tree) && target != source
    ensures RemovePane(ReplaceLeaf(tree, target, SplitFor(target, source, side)), source) == Some(tree)
  {
    match tree
    case Leaf(_) =>
    case Split(_, first, second, _) =>
      RemoveUndoesReplace(first, target, source, side);
      RemoveUndoesReplace(second, target, source, side);
  }

  // ----- Which split the new pane gets -----

  /** The split that has the pane as one of its two halves. */
  function ParentOf(tree: Tree, id: string): Option<Tree> {
    match tree
    case Leaf(_) => None
    case Split(_, first, second, _) =>
      if first == Leaf(id) || second == Leaf(id) then Some(tree)
      else if id in LeavesOf(first) then ParentOf(first, id)
      else ParentOf(second, id)
  }

  predicate PairOf(pair: Tree, target: string, source: string) {
    pair.Split? && target != source
    && ((pair.first == Leaf(target) && pair.second == Leaf(source)) || (pair.first == Leaf(source) && pair.second == Leaf(target)))
  }

  lemma {:induction false} ReplacedHas(tree: Tree, target: string, source: string, pair: Tree)
    requires PairOf(pair, target, source) && source !in LeavesOf(tree)
    ensures source in LeavesOf(ReplaceLeaf(tree, target, pair)) <==> target in LeavesOf(tree)
    ensures ReplaceLeaf(tree, target, pair) != Leaf(source)
  {
    match tree
    case Leaf(_) =>
    case Split(_, first, second, _) =>
      ReplacedHas(first, target, source, pair);
      ReplacedHas(second, target, source, pair);
  }

  lemma {:induction false} ReplacedParent(tree: Tree, target: string, source: string, pair: Tree)
    requires PairOf(pair, target, source) && target in LeavesOf(tree) && source !in LeavesOf(tree)
    ensures ParentOf(ReplaceLeaf(tree, target, pair), source) == Some(pair)
  {
    match tree
    case Leaf(_) =>
    case Split(_, first, second, _) =>
      ReplacedHas(first, target, source, pair);
      ReplacedHas(second, target, source, pair);
      if target in LeavesOf(first) {
        ReplacedParent(first, target, source, pair);
      } else {
        ReplacedParent(second, target, source, pair);
      }
  }

  /** A docked pane shares one new split with its target, half and half: side by side for left and right, one
      above the other for top and bottom. */
  lemma DockedParent(tree: Tree, target: string, source: string, side: DockSide)
    requires !NoOp(Some(tree), target, source)
    ensures DockPane(Some(tree), target, source, side).Some?
    ensures ParentOf(DockPane(Some(tree), target, source, side).value, source)
         == match side
            case Left => Some(Split(Row, Leaf(source), Leaf(target), 50.0))
            case Right => Some(Split(Row, Leaf(target), Leaf(source), 50.0))
            case Top => Some(Split(Column, Leaf(source), Leaf(target), 50.0))
            case Bottom => Some(Split(Column, Leaf(target), Leaf(source), 50.0))
  {
    var leaves := LeavesOf(tree);
    RemoveMeaning(tree, source);
    KeepMember(leaves, OtherThan(source), target);
    KeepMember(leaves, OtherThan(source), source);
    var pruned := RemovePane(tree, source).value;
    ReplacedParent(pruned, target, source, SplitFor(target, source, side));
  }

  /** A pane added to a leaf shares one new split with it, in the direction asked for. */
  lemma AddedParent(tree: Tree, leafId: string, newId: string, direction: Direction)
    requires leafId in LeavesOf(tree) && newId !in LeavesOf(tree)
    ensures ParentOf(AddPane(tree, leafId, newId, direction), newId)
         == Some(Split(direction, Leaf(leafId), Leaf(newId), 50.0))
  {
    AddIsReplace(tree, leafId, newId, direction);
    ReplacedParent(tree, leafId, newId, Split(direction, Leaf(leafId), Leaf(newId), 50.0));
  }

  lemma {:induction false} AddIsReplace(tree: Tree, leafId: string, newId: string, direction: Direction)
    ensures AddPane(tree, leafId, newId, direction)
         == ReplaceLeaf(tree, leafId, Split(direction, Leaf(leafId), Leaf(newId), 50.0))
  {
    match tree
    case Leaf(_) =>
    case Split(_, first, second, _) =>
      AddIsReplace(first, leafId, newId, direction);
      AddIsReplace(second, leafId, newId, direction);
  }

  lemma ReplacedMember(tree: Tree, target: string, source: string, side: DockSide, x: string)
    requires x != source
    ensures x in LeavesOf(ReplaceLeaf(tree, target, SplitFor(target, source, side))) <==> x in LeavesOf(tree)
  {
    var middle := LeavesOf(SplitFor(target, source, side));
    ReplaceMeaning(tree, target, SplitFor(target, source, side));
    SubstitutedMember(LeavesOf(tree), target, middle, x);
  }

  lemma {:induction false} SubstitutedMember(leaves: seq<string>, id: string, middle: seq<string>, x: string)
    requires id in middle && (x in middle ==> x == id)
    ensures x in Substitute(leaves, id, middle) <==> x in leaves
  {
    if leaves != [] {
      SubstitutedMember(leaves[1..], id, middle, x);
      assert leaves == [leaves[0]] + leaves[1..];
    }
  }

  lemma {:induction false} ReplaceKeepsDividers(tree: Tree, target: string, source: string, side: DockSide, x: string, y: string)
    requires x != source && y != source && target != source
    ensures Divider(Some(ReplaceLeaf(tree, target, SplitFor(target, source, side))), x, y) == Divider(Some(tree), x, y)
  {
    match tree
    case Leaf(_) =>
    case Split(_, first, second, _) =>
      ReplaceKeepsDividers(first, target, source, side, x, y);
      ReplaceKeepsDividers(second, target, source, side, x, y);
      ReplacedMember(first, target, source, side, x);
      ReplacedMember(first, target, source, side, y);
      ReplacedMember(second, target, source, side, x);
      ReplacedMember(second, target, source, side, y);
  }

  /** Docking a pane leaves every two other panes under the split they were under, with its direction, order and
      percentage. */
  lemma DockKeepsDividers(tree: Tree, target: string, source: string, side: DockSide, x: string, y: string)
    requires x != source && y != source
    ensures Divider(DockPane(Some(tree), target, source, side), x, y) == Divider(Some(tree), x, y)
  {
    hide Divider, ReplaceLeaf;
    RemoveKeepsDividers(tree, source, x, y);
    if target != source {
      RemovedMember(tree, source, target);
    }
    if target != source && RemovePane(tree, source).Some? {
      ReplaceKeepsDividers(RemovePane(tree, source).value, target, source, side, x, y);
    }
    if target != source {
      ReplaceKeepsDividers(tree, target, source, side, x, y);
    }
  }

  // ----- Taking a pane back from a detached window -----

  /** The tree after a returned pane is accepted, or None when the workspace is full. */
  function AcceptPane(current: Option<Tree>, focused: Option<string>, placement: Option<PanePlacement>, id: string)
    : Option<Option<Tree>>
  {
    var leaves := GetLeaves(current);
    match placement
    case Some(place) =>
      var base := if place.paneId !in leaves then Some(Leaf(place.paneId)) else current;
      var next := DockPane(base, place.paneId, id, place.side);
      if next == base && id !in GetLeaves(base) then None else Some(next)
    case None =>
      if id in leaves then Some(current)
      else if |leaves| > 1 then
        var place := if focused.Some? && focused.value in leaves then focused.value else leaves[0];
        Some(Some(ReplaceLeaf(current.value, place, Leaf(id))))
      else Some(Some(Leaf(id)))
  }

  /** Where a returned pane goes without a placement: nowhere when it is shown, onto the focused pane (or the
      first) of several, and in place of a single one. */
  ghost predicate Unplaced(before: seq<string>, focused: Option<string>, id: string, after: seq<string>) {
    if id in before then after == before
    else if |before| > 1 then
      exists k :: 0 <= k < |before| && after == before[k := id]
        && if focused.Some? && focused.value in before then before[k] == focused.value else k == 0
    else after == [id]
  }

  /** Where it goes with one: right beside the pane it was dropped on, and no other pane moves. A pane that is not
      shown (a tab that was made the target) first takes the place of the whole tree. */
  ghost predicate Placed(before: seq<string>, place: PanePlacement, id: string, after: seq<string>) {
    var base := if place.paneId in before then before else [place.paneId];
    if place.paneId == id then after == base
    else place.paneId in Without(base, id) && after == Beside(Without(base, id), place.paneId, id, place.side)
  }

  lemma AcceptPlaced(current: Option<Tree>, place: PanePlacement, id: string)
    requires Distinct(GetLeaves(current)) && CountLeaves(current) <= MAX_TERMINAL_PANES
    ensures var base := if place.paneId !in GetLeaves(current) then Some(Leaf(place.paneId)) else current;
            var next := DockPane(base, place.paneId, id, place.side);
            && (next == base && id !in GetLeaves(base) <==>
                place.paneId in GetLeaves(current) && id !in GetLeaves(current) && CountLeaves(current) == MAX_TERMINAL_PANES)
            && (next != base || id in GetLeaves(base) ==>
                  && id in GetLeaves(next) && Distinct(GetLeaves(next)) && CountLeaves(next) <= MAX_TERMINAL_PANES
                  && Placed(GetLeaves(current), place, id, GetLeaves(next)))
  {
    var base := if place.paneId !in GetLeaves(current) then Some(Leaf(place.paneId)) else current;
    assert GetLeaves(base) == if place.paneId in GetLeaves(current) then GetLeaves(current) else [place.paneId];
    DockMeaning(base, place.paneId, id, place.side);
    DockKeepsLayout(base, place.paneId, id, place.side);
  }

  lemma AcceptReplacing(tree: Tree, place: string, id: string)
    requires Distinct(LeavesOf(tree)) && place in LeavesOf(tree) && id !in LeavesOf(tree)
    ensures var before, after := LeavesOf(tree), LeavesOf(ReplaceLeaf(tree, place, Leaf(id)));
            && id in after && Distinct(after) && |after| == |before|
            && exists k :: 0 <= k < |before| && before[k] == place && after == before[k := id]
  {
    var leaves := LeavesOf(tree);
    var k := IndexOf(leaves, place);
    ReplaceMeaning(tree, place, Leaf(id));
    SubstituteOnce(leaves, k, [id]);
    var after := leaves[..k] + [id] + leaves[k + 1..];
    assert after == leaves[k := id];
    assert after[k] == id;
    assert forall i :: 0 <= i < |after| && i != k ==> after[i] == leaves[i];
  }

  /** A returned pane is refused exactly when it would be a tenth pane beside one that is shown. An accepted one is
      shown where it was put, the panes stay distinct and the bound holds. */
  lemma AcceptMeaning(current: Option<Tree>, focused: Option<string>, placement: Option<PanePlacement>, id: string)
    requires Distinct(GetLeaves(current)) && CountLeaves(current) <= MAX_TERMINAL_PANES
    ensures var accepted := AcceptPane(current, focused, placement, id);
            && (accepted.None? <==> placement.Some? && placement.value.paneId in GetLeaves(current)
                                    && id !in GetLeaves(current) && CountLeaves(current) == MAX_TERMINAL_PANES)
            && (accepted.Some? ==>
                  && id in GetLeaves(accepted.value)
                  && Distinct(GetLeaves(accepted.value)) && CountLeaves(accepted.value) <= MAX_TERMINAL_PANES)
            && (accepted.Some? && placement.None? ==> Unplaced(GetLeaves(current), focused, id, GetLeaves(accepted.value)))
            && (accepted.Some? && placement.Some? ==> Placed(GetLeaves(current), placement.value, id, GetLeaves(accepted.value)))
  {
    if placement.Some? {
      AcceptPlaced(current, placement.value, id);
    } else if id !in GetLeaves(current) && CountLeaves(current) > 1 {
      var place := if focused.Some? && focused.value in GetLeaves(current) then focused.value else GetLeaves(current)[0];
      AcceptReplacing(current.value, place, id);
    }
  }

  // ----- Any sequence of layout changes -----

  /** `Prune` falls back to one pane when nothing is left, `Show` makes one pane the whole workspace, `Select` shows
      the tab that became active, `SplitTab` and `DropTab` put a tab beside a pane. */
  datatype LayoutOp =
    | Dock(target: string, source: string, side: DockSide)
    | Remove(id: string)
    | Prune(valid: set<string>, fallback: Option<string>)
    | Show(id: string)
    | Select(id: string, focused: Option<string>, isSession: bool)
    | SplitTab(target: string, id: string, direction: Direction)
    | DropTab(place: PanePlacement, id: string)

  function Only(id: Option<string>): Option<Tree> {
    if id.Some? then Some(Leaf(id.value)) else None
  }

  function OrElse(tree: Option<Tree>, other: Option<Tree>): Option<Tree> {
    if tree.Some? then tree else other
  }

  function ApplyOp(tree: Option<Tree>, op: LayoutOp): Option<Tree> {
    match op
    case Dock(target, source, side) => DockPane(tree, target, source, side)
    case Remove(id) => if tree.None? then None else RemovePane(tree.value, id)
    case Prune(valid, fallback) => OrElse(if tree.None? then None else PruneLeaves(tree.value, valid), Only(fallback))
    case Show(id) => Some(Leaf(id))
    case Select(id, focused, isSession) =>
      if CountLeaves(tree) <= 1 && !isSession then tree
      else
        var shown := AcceptPane(tree, focused, None, id);
        if shown.Some? then shown.value else tree
    case SplitTab(target, id, direction) =>
      if id in GetLeaves(tree) || CountLeaves(tree) >= MAX_TERMINAL_PANES then tree
      else if tree.None? then Some(Leaf(id))
      else Some(AddPane(tree.value, target, id, direction))
    case DropTab(place, id) =>
      var docked := AcceptPane(tree, None, Some(place), id);
      if docked.Some? then docked.value else tree
  }

  function ApplyOps(tree: Option<Tree>, ops: seq<LayoutOp>): Option<Tree>
    decreases ops
  {
    if ops == [] then tree else ApplyOps(ApplyOp(tree, ops[0]), ops[1..])
  }

  /** What each change makes of the panes, in order. */
  lemma OpMeaning(tree: Option<Tree>, op: LayoutOp)
    requires Distinct(GetLeaves(tree)) && CountLeaves(tree) <= MAX_TERMINAL_PANES
    ensures var before, after := GetLeaves(tree), GetLeaves(ApplyOp(tree, op));
            match op
            case Dock(_, _, _) => true
            case Remove(id) => after == Keep(before, OtherThan(id))
            case Prune(valid, fallback) =>
              if Keep(before, Among(valid)) != [] then after == Keep(before, Among(valid))
              else if fallback.Some? then after == [fallback.value] else after == []
            case Show(id) => after == [id]
            case Select(id, focused, isSession) =>
              if |before| > 1 || isSession then Unplaced(before, focused, id, after) else after == before
            case SplitTab(target, id, _) =>
              if id in before || |before| == MAX_TERMINAL_PANES then after == before
              else if tree.None? then after == [id]
              else after == Substitute(before, target, [target, id])
            case DropTab(place, id) =>
              if place.paneId in before && id !in before && |before| == MAX_TERMINAL_PANES then after == before
              else Placed(before, place, id, after)
  {
    hide DockPane, AcceptPane, Unplaced, Placed;
    match op {
      case Dock(_, _, _) =>
      case Remove(id) =>
        if tree.Some? {
          RemoveMeaning(tree.value, id);
        }
      case Prune(valid, _) =>
        if tree.Some? {
          PruneMeaning(tree.value, valid);
          LeavesExist(tree.value);
          if PruneLeaves(tree.value, valid).Some? {
            LeavesExist(PruneLeaves(tree.value, valid).value);
          }
        }
      case Show(_) =>
      case Select(id, focused, _) => AcceptMeaning(tree, focused, None, id);
      case SplitTab(target, id, direction) =>
        if tree.Some? {
          AddMeaning(tree.value, target, id, direction);
        }
      case DropTab(place, id) => AcceptMeaning(tree, None, Some(place), id);
    }
  }

  lemma {:induction false} LeavesExist(tree: Tree)
    ensures LeavesOf(tree) != []
  {
    if tree.Split? {
      LeavesExist(tree.first);
    }
  }

  /** Adding a pane, too, leaves every two other panes under the split they were under. */
  lemma AddKeepsDividers(tree: Tree, target: string, id: string, direction: Direction, x: string, y: string)
    requires x != id && y != id && target != id
    ensures Divider(Some(AddPane(tree, target, id, direction)), x, y) == Divider(Some(tree), x, y)
  {
    AddIsReplace(tree, target, id, direction);
    ReplaceKeepsDividers(tree, target, id, if direction == Row then Right else Bottom, x, y);
  }

  /** Splitting for a tab that is not shown is docking it to the right or at the bottom. */
  lemma SplitKeepsLayout(tree: Option<Tree>, target: string, id: string, direction: Direction)
    requires Distinct(GetLeaves(tree)) && CountLeaves(tree) < MAX_TERMINAL_PANES && id !in GetLeaves(tree) && tree.Some?
    ensures var next := Some(AddPane(tree.value, target, id, direction));
            Distinct(GetLeaves(next)) && CountLeaves(next) <= MAX_TERMINAL_PANES
  {
    AddIsReplace(tree.value, target, id, direction);
    if target in GetLeaves(tree) {
      DockKeepsLayout(tree, target, id, if direction == Row then Right else Bottom);
    } else {
      ReplaceMeaning(tree.value, target, Split(direction, Leaf(target), Leaf(id), 50.0));
    }
  }

  lemma PruneKeepsLayout(tree: Option<Tree>, valid: set<string>, fallback: Option<string>)
    requires Distinct(GetLeaves(tree)) && CountLeaves(tree) <= MAX_TERMINAL_PANES
    ensures var next := ApplyOp(tree, Prune(valid, fallback));
            Distinct(GetLeaves(next)) && CountLeaves(next) <= MAX_TERMINAL_PANES
  {
    if tree.Some? {
      PruneMeaning(tree.value, valid);
      KeepDistinct(GetLeaves(tree), Among(valid));
    }
  }

  lemma OpKeepsLayout(tree: Option<Tree>, op: LayoutOp)
    requires Distinct(GetLeaves(tree)) && CountLeaves(tree) <= MAX_TERMINAL_PANES
    ensures Distinct(GetLeaves(ApplyOp(tree, op))) && CountLeaves(ApplyOp(tree, op)) <= MAX_TERMINAL_PANES
  {
    hide DockPane, AcceptPane, PruneLeaves;
    match op {
      case Dock(target, source, side) => DockKeepsLayout(tree, target, source, side);
      case Remove(id) =>
        if tree.Some? {
          RemoveMeaning(tree.value, id);
          KeepDistinct(GetLeaves(tree), OtherThan(id));
        }
      case Prune(valid, fallback) => PruneKeepsLayout(tree, valid, fallback);
      case Show(_) =>
      case Select(id, focused, _) => AcceptMeaning(tree, focused, None, id);
      case SplitTab(target, id, direction) =>
        if tree.Some? && id !in GetLeaves(tree) && CountLeaves(tree) < MAX_TERMINAL_PANES {
          SplitKeepsLayout(tree, target, id, direction);
        }
      case DropTab(place, id) => AcceptMeaning(tree, None, Some(place), id);
    }
  }

  /** From an empty workspace, or any proper one, every sequence of these changes keeps the panes distinct and at
      most nine. */
  lemma {:induction false} OpsKeepLayout(tree: Option<Tree>, ops: seq<LayoutOp>)
    requires Distinct(GetLeaves(tree)) && CountLeaves(tree) <= MAX_TERMINAL_PANES
    ensures Distinct(GetLeaves(ApplyOps(tree, ops))) && CountLeaves(ApplyOps(tree, ops)) <= MAX_TERMINAL_PANES
    decreases ops
  {
    hide Distinct, ApplyOp;
    if ops != [] {
      OpKeepsLayout(tree, ops[0]);
      OpsKeepLayout(ApplyOp(tree, ops[0]), ops[1..]);
    }
  }
}
