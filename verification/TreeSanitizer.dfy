/** Turning an untrusted layout into a tree of panes. The input is any value, possibly with cycles: objects
    are references into a graph. Malformed branches, deep parts, and stale, repeated or surplus leaves go. */
module TreeSanitizer {
  import opened Wrappers
  import opened MosaicTree

  const MAX_DEPTH: nat := 20
  const MAX_ID_LENGTH: nat := 8192

  /** A value: a string, a finite number, an object, or anything else. */
  datatype Value = Text(text: string) | Number(number: real) | Object(ref: nat) | Other

  /** The properties of an object that the sanitizer reads; a missing property is `Other`. */
  datatype Fields = Fields(direction: Value, first: Value, second: Value, splitPercentage: Value)

  type Graph = map<nat, Fields>

  const NO_FIELDS := Fields(Other, Other, Other, Other)

  function FieldsOf(graph: Graph, ref: nat): Fields {
    if ref in graph then graph[ref] else NO_FIELDS
  }

  function DirectionOf(v: Value): Option<Direction> {
    if v == Text("row") then Some(Row)
    else if v == Text("column") then Some(Column)
    else None
  }

  function Percentage(v: Value): (p: real)
    ensures 1.0 <= p <= 99.0
    ensures v.Number? && 1.0 <= v.number <= 99.0 ==> p == v.number
  {
    if !v.Number? then 50.0
    else if v.number < 1.0 then 1.0
    else if v.number > 99.0 then 99.0
    else v.number
  }

  predicate ValidId(valid: Option<set<string>>, id: string) {
    id != "" && |id| <= MAX_ID_LENGTH && (valid.Some? ==> id in valid.value)
  }

  /** The value of the recursive visit, with the set of leaves seen so far passed along. */
  function Visit(graph: Graph, valid: Option<set<string>>, node: Value, depth: nat, seen: set<string>): (Option<Tree>, set<string>)
    decreases MAX_DEPTH + 1 - depth
  {
    if depth > MAX_DEPTH || |seen| >= MAX_TERMINAL_PANES then (None, seen)
    else
      match node
      case Text(id) => if !ValidId(valid, id) || id in seen then (None, seen) else (Some(Leaf(id)), seen + {id})
      case Object(ref) =>
        var fields := FieldsOf(graph, ref);
        if DirectionOf(fields.direction).None? then (None, seen)
        else
          var (first, seen1) := Visit(graph, valid, fields.first, depth + 1, seen);
          var (second, seen2) := Visit(graph, valid, fields.second, depth + 1, seen1);
          (Branch(fields, first, second), seen2)
      case _ => (None, seen)
  }

  function Branch(fields: Fields, first: Option<Tree>, second: Option<Tree>): Option<Tree>
    requires DirectionOf(fields.direction).Some?
  {
    if first.Some? && second.Some? then
      Some(Split(DirectionOf(fields.direction).value, first.value, second.value, Percentage(fields.splitPercentage)))
    else if first.Some? then first
    else second
  }

  function SanitizeTree(graph: Graph, value: Value, valid: Option<set<string>>): Option<Tree> {
    Visit(graph, valid, value, 0, {}).0
  }

  /** The visit as it runs: one set, changed in place, shared by the whole traversal. */
  class Sanitizer {
    const graph: Graph
    const valid: Option<set<string>>
    var seen: set<string>

    constructor (graph: Graph, valid: Option<set<string>>)
      ensures this.graph == graph && this.valid == valid && seen == {}
    {
      this.graph, this.valid, seen := graph, valid, {};
    }

    method VisitNode(node: Value, depth: nat) returns (tree: Option<Tree>)
      modifies this
      ensures (tree, seen) == Visit(graph, valid, node, depth, old(seen))
      decreases MAX_DEPTH + 1 - depth
    {
      hide FieldsOf, DirectionOf, ValidId, Branch;
      if depth > MAX_DEPTH || |seen| >= MAX_TERMINAL_PANES {
        return None;
      }
      match node {
        case Text(id) =>
          if !ValidId(valid, id) || id in seen {
            return None;
          }
          seen := seen + {id};
          return Some(Leaf(id));
        case Object(ref) =>
          var fields := FieldsOf(graph, ref);
          if DirectionOf(fields.direction).None? {
            return None;
          }
          var first := VisitNode(fields.first, depth + 1);
          var second := VisitNode(fields.second, depth + 1);
          return Branch(fields, first, second);
        case _ =>
          return None;
      }
    }
  }

  method Sanitize(graph: Graph, value: Value, valid: Option<set<string>>) returns (tree: Option<Tree>)
    ensures tree == SanitizeTree(graph, value, valid)
  {
    var sanitizer := new Sanitizer(graph, valid);
    tree := sanitizer.VisitNode(value, 0);
  }

  // ----- Which leaves survive -----

  /** The strings a value offers as leaves: those within the depth bound under well-formed branches, in order. */
  function Offered(graph: Graph, node: Value, depth: nat): seq<string>
    decreases MAX_DEPTH + 1 - depth
  {
    if depth > MAX_DEPTH then []
    else
      match node
      case Text(id) => [id]
      case Object(ref) =>
        var fields := FieldsOf(graph, ref);
        if DirectionOf(fields.direction).None? then []
        else Offered(graph, fields.first, depth + 1) + Offered(graph, fields.second, depth + 1)
      case _ => []
  }

  /** The first occurrences of the valid identifiers, in order. */
  function FirstValid(ids: seq<string>, valid: Option<set<string>>): (firsts: seq<string>)
    ensures forall x :: x in firsts <==> x in ids && ValidId(valid, x)
  {
    if ids == [] then []
    else
      var front, last := ids[..|ids| - 1], ids[|ids| - 1];
      var firsts := FirstValid(front, valid);
      if ValidId(valid, last) && last !in firsts then firsts + [last] else firsts
  }

  function Take(ids: seq<string>, n: nat): seq<string> {
    if n < |ids| then ids[..n] else ids
  }

  function SetOf(ids: seq<string>): set<string> {
    set x | x in ids
  }

  /** What visiting adds after `done` has been offered: the leaves of the result extend the first nine. */
  function Kept(done: seq<string>, valid: Option<set<string>>): seq<string> {
    Take(FirstValid(done, valid), MAX_TERMINAL_PANES)
  }

  lemma {:induction false} FirstValidDistinct(ids: seq<string>, valid: Option<set<string>>)
    ensures Distinct(FirstValid(ids, valid)) && |SetOf(FirstValid(ids, valid))| == |FirstValid(ids, valid)|
  {
    if ids != [] {
      FirstValidDistinct(ids[..|ids| - 1], valid);
      var firsts := FirstValid(ids[..|ids| - 1], valid);
      var last := ids[|ids| - 1];
      assert SetOf(firsts + [last]) == SetOf(firsts) + {last};
    }
  }

  lemma {:induction false} FirstValidExtends(a: seq<string>, b: seq<string>, valid: Option<set<string>>)
    ensures FirstValid(a, valid) <= FirstValid(a + b, valid)
  {
    if b == [] {
      assert a + b == a;
    } else {
      FirstValidExtends(a, b[..|b| - 1], valid);
      assert (a + b)[..|a + b| - 1] == a + b[..|b| - 1];
    }
  }

  lemma KeptFull(done: seq<string>, more: seq<string>, valid: Option<set<string>>)
    requires |Kept(done, valid)| >= MAX_TERMINAL_PANES
    ensures Kept(done + more, valid) == Kept(done, valid)
  {
    FirstValidExtends(done, more, valid);
  }

  lemma KeptIsSeen(done: seq<string>, valid: Option<set<string>>)
    ensures |SetOf(Kept(done, valid))| == |Kept(done, valid)| <= MAX_TERMINAL_PANES
    ensures |Kept(done, valid)| < MAX_TERMINAL_PANES ==> Kept(done, valid) == FirstValid(done, valid)
    ensures Distinct(Kept(done, valid)) && forall x :: x in Kept(done, valid) ==> ValidId(valid, x)
  {
    FirstValidDistinct(done, valid);
    var kept := Kept(done, valid);
    DistinctCount(kept);
    assert forall x :: x in kept ==> x in FirstValid(done, valid);
  }

  lemma {:induction false} DistinctCount(ids: seq<string>)
    requires Distinct(ids)
    ensures |SetOf(ids)| == |ids|
  {
    if ids != [] {
      var front, last := ids[..|ids| - 1], ids[|ids| - 1];
      DistinctCount(front);
      assert SetOf(ids) == SetOf(front) + {last} by {
        assert ids == front + [last];
      }
      assert last !in front;
    }
  }

  lemma KeptText(done: seq<string>, id: string, valid: Option<set<string>>)
    requires |Kept(done, valid)| < MAX_TERMINAL_PANES
    ensures var isNew := ValidId(valid, id) && id !in Kept(done, valid);
            Kept(done + [id], valid) == if isNew then Kept(done, valid) + [id] else Kept(done, valid)
  {
    KeptIsSeen(done, valid);
    assert (done + [id])[..|done + [id]| - 1] == done;
  }

  /** Visiting a node adds to what was kept exactly the leaves of the tree it returns. */
  lemma {:induction false} VisitKeeps(graph: Graph, valid: Option<set<string>>, node: Value, depth: nat, done: seq<string>)
    ensures var (tree, seen) := Visit(graph, valid, node, depth, SetOf(Kept(done, valid)));
            && Kept(done + Offered(graph, node, depth), valid) == Kept(done, valid) + GetLeaves(tree)
            && seen == SetOf(Kept(done + Offered(graph, node, depth), valid))
    decreases MAX_DEPTH + 1 - depth
  {
    KeptIsSeen(done, valid);
    assert done + [] == done;
    if depth <= MAX_DEPTH && |Kept(done, valid)| >= MAX_TERMINAL_PANES {
      KeptFull(done, Offered(graph, node, depth), valid);
    } else if depth <= MAX_DEPTH {
      match node {
        case Text(id) =>
          KeptText(done, id, valid);
          assert SetOf(Kept(done, valid) + [id]) == SetOf(Kept(done, valid)) + {id};
        case Object(ref) =>
          var fields := FieldsOf(graph, ref);
          if DirectionOf(fields.direction).Some? {
            VisitBranch(graph, valid, fields, depth, done);
          }
        case _ =>
      }
    }
  }

  lemma {:induction false} VisitBranch(graph: Graph, valid: Option<set<string>>, fields: Fields, depth: nat, done: seq<string>)
    requires DirectionOf(fields.direction).Some? && depth <= MAX_DEPTH
    ensures var offered := Offered(graph, fields.first, depth + 1) + Offered(graph, fields.second, depth + 1);
            var (first, seen1) := Visit(graph, valid, fields.first, depth + 1, SetOf(Kept(done, valid)));
            var (second, seen2) := Visit(graph, valid, fields.second, depth + 1, seen1);
            && Kept(done + offered, valid) == Kept(done, valid) + GetLeaves(Branch(fields, first, second))
            && seen2 == SetOf(Kept(done + offered, valid))
    decreases MAX_DEPTH + 1 - depth, 0
  {
    hide Visit, Offered, Kept;
    var a, b := Offered(graph, fields.first, depth + 1), Offered(graph, fields.second, depth + 1);
    VisitKeeps(graph, valid, fields.first, depth + 1, done);
    VisitKeeps(graph, valid, fields.second, depth + 1, done + a);
    assert done + a + b == done + (a + b);
    var (first, seen1) := Visit(graph, valid, fields.first, depth + 1, SetOf(Kept(done, valid)));
    var (second, seen2) := Visit(graph, valid, fields.second, depth + 1, seen1);
    assert GetLeaves(Branch(fields, first, second)) == GetLeaves(first) + GetLeaves(second);
  }

  /** The leaves of the sanitized tree are the first nine distinct valid strings, in order, among those the
      value offers within the depth bound under well-formed branches; percentages are within 1 and 99. */
  lemma SanitizedLeaves(graph: Graph, value: Value, valid: Option<set<string>>)
    ensures var tree := SanitizeTree(graph, value, valid);
            && GetLeaves(tree) == Take(FirstValid(Offered(graph, value, 0), valid), MAX_TERMINAL_PANES)
            && Proper(tree, valid)
  {
    VisitKeeps(graph, valid, value, 0, []);
    assert SetOf(Kept([], valid)) == {};
    assert [] + Offered(graph, value, 0) == Offered(graph, value, 0);
    KeptIsSeen(Offered(graph, value, 0), valid);
    PercentagesBounded(graph, valid, value, 0, {});
  }

  ghost predicate Percentages(tree: Tree) {
    tree.Split? ==> 1.0 <= tree.percentage <= 99.0 && Percentages(tree.first) && Percentages(tree.second)
  }

  lemma {:induction false} PercentagesBounded(graph: Graph, valid: Option<set<string>>, node: Value, depth: nat, seen: set<string>)
    ensures var tree := Visit(graph, valid, node, depth, seen).0; tree.Some? ==> Percentages(tree.value)
    decreases MAX_DEPTH + 1 - depth
  {
    if depth <= MAX_DEPTH && |seen| < MAX_TERMINAL_PANES && node.Object? {
      var fields := FieldsOf(graph, node.ref);
      if DirectionOf(fields.direction).Some? {
        PercentagesBounded(graph, valid, fields.first, depth + 1, seen);
        PercentagesBounded(graph, valid, fields.second, depth + 1, Visit(graph, valid, fields.first, depth + 1, seen).1);
      }
    }
  }

  // ----- Where the splits come from -----

  /** A missing percentage is an even split, and one out of bounds is the nearest bound. */
  ghost predicate PercentageFor(v: Value, p: real) {
    match v
    case Number(n) => (1.0 <= n <= 99.0 ==> p == n) && (n < 1.0 ==> p == 1.0) && (n > 99.0 ==> p == 99.0)
    case _ => p == 50.0
  }

  ghost predicate OffersAll(graph: Graph, node: Value, depth: nat, tree: Tree) {
    forall x :: x in LeavesOf(tree) ==> x in Offered(graph, node, depth)
  }

  /** The split is that of an object of the input: it has its direction and percentage, and each side holds panes that
      this side of the object offers. */
  ghost predicate SplitOf(graph: Graph, split: Tree) {
    exists ref, depth :: SplitAt(graph, split, ref, depth)
  }

  ghost predicate SplitAt(graph: Graph, split: Tree, ref: nat, depth: nat) {
    var fields := FieldsOf(graph, ref);
    && split.Split?
    && fields.direction == (if split.direction == Row then Text("row") else Text("column"))
    && PercentageFor(fields.splitPercentage, split.percentage)
    && OffersAll(graph, fields.first, depth, split.first) && OffersAll(graph, fields.second, depth, split.second)
  }

  lemma {:induction false} VisitOffers(graph: Graph, valid: Option<set<string>>, node: Value, depth: nat, seen: set<string>)
    ensures var tree := Visit(graph, valid, node, depth, seen).0; tree.Some? ==> OffersAll(graph, node, depth, tree.value)
    decreases MAX_DEPTH + 1 - depth
  {
    if depth <= MAX_DEPTH && |seen| < MAX_TERMINAL_PANES && node.Object? {
      var fields := FieldsOf(graph, node.ref);
      if DirectionOf(fields.direction).Some? {
        VisitOffers(graph, valid, fields.first, depth + 1, seen);
        VisitOffers(graph, valid, fields.second, depth + 1, Visit(graph, valid, fields.first, depth + 1, seen).1);
      }
    }
  }

  lemma BranchSplit(graph: Graph, ref: nat, depth: nat, first: Option<Tree>, second: Option<Tree>)
    requires var fields := FieldsOf(graph, ref);
             && DirectionOf(fields.direction).Some? && first.Some? && second.Some?
             && OffersAll(graph, fields.first, depth, first.value) && OffersAll(graph, fields.second, depth, second.value)
    ensures SplitOf(graph, Branch(FieldsOf(graph, ref), first, second).value)
  {
    hide OffersAll;
    assert SplitAt(graph, Branch(FieldsOf(graph, ref), first, second).value, ref, depth);
  }

  /** Every split of the tree is one of the input's. */
  ghost predicate SplitsFrom(graph: Graph, tree: Tree) {
    tree.Split? ==> SplitOf(graph, tree) && SplitsFrom(graph, tree.first) && SplitsFrom(graph, tree.second)
  }

  lemma BranchFrom(graph: Graph, ref: nat, depth: nat, first: Option<Tree>, second: Option<Tree>)
    requires DirectionOf(FieldsOf(graph, ref).direction).Some?
    requires first.Some? ==> OffersAll(graph, FieldsOf(graph, ref).first, depth, first.value) && SplitsFrom(graph, first.value)
    requires second.Some? ==> OffersAll(graph, FieldsOf(graph, ref).second, depth, second.value) && SplitsFrom(graph, second.value)
    ensures var tree := Branch(FieldsOf(graph, ref), first, second); tree.Some? ==> SplitsFrom(graph, tree.value)
  {
    hide OffersAll, SplitOf, FieldsOf;
    if first.Some? && second.Some? {
      BranchSplit(graph, ref, depth, first, second);
    }
  }

  /** Every split of a sanitized tree is one of the input's, with its direction and its percentage brought within
      bounds; and what it separates the input separates there. */
  lemma {:induction false} SplitsAreOffered(graph: Graph, valid: Option<set<string>>, node: Value, depth: nat, seen: set<string>)
    ensures var tree := Visit(graph, valid, node, depth, seen).0; tree.Some? ==> SplitsFrom(graph, tree.value)
    decreases MAX_DEPTH + 1 - depth
  {
    hide OffersAll, FieldsOf, Branch, DirectionOf;
    if depth <= MAX_DEPTH && |seen| < MAX_TERMINAL_PANES && node.Object? {
      var fields := FieldsOf(graph, node.ref);
      if DirectionOf(fields.direction).Some? {
        var (first, seen1) := Visit(graph, valid, fields.first, depth + 1, seen);
        var (second, _) := Visit(graph, valid, fields.second, depth + 1, seen1);
        SplitsAreOffered(graph, valid, fields.first, depth + 1, seen);
        SplitsAreOffered(graph, valid, fields.second, depth + 1, seen1);
        VisitOffers(graph, valid, fields.first, depth + 1, seen);
        VisitOffers(graph, valid, fields.second, depth + 1, seen1);
        BranchFrom(graph, node.ref, depth + 1, first, second);
      }
    }
  }

  /** A tree the sanitizer could have produced. */
  ghost predicate Proper(tree: Option<Tree>, valid: Option<set<string>>) {
    && Distinct(GetLeaves(tree)) && CountLeaves(tree) <= MAX_TERMINAL_PANES
    && (forall x :: x in GetLeaves(tree) ==> ValidId(valid, x))
    && (tree.Some? ==> Percentages(tree.value))
  }

  // ----- Sanitizing a proper tree -----

  /** The value stands for the tree, in any graph. */
  ghost predicate Represents(graph: Graph, value: Value, tree: Tree)
    decreases tree
  {
    match tree
    case Leaf(id) => value == Text(id)
    case Split(direction, first, second, percentage) =>
      && value.Object?
      && var fields := FieldsOf(graph, value.ref);
         && DirectionOf(fields.direction) == Some(direction)
         && Represents(graph, fields.first, first) && Represents(graph, fields.second, second)
         && fields.splitPercentage == Number(percentage)
  }

  ghost predicate RepresentsOption(graph: Graph, value: Value, tree: Option<Tree>) {
    if tree.None? then value == Other else Represents(graph, value, tree.value)
  }

  function Height(tree: Tree): nat {
    match tree
    case Leaf(_) => 0
    case Split(_, first, second, _) =>
      1 + if Height(first) < Height(second) then Height(second) else Height(first)
  }

  /** A tree is less deep than it has leaves, so nine leaves always fit under the depth bound. */
  lemma {:induction false} DepthBelowLeafCount(tree: Tree)
    ensures Height(tree) < |LeavesOf(tree)|
  {
    match tree
    case Leaf(_) =>
    case Split(_, first, second, _) =>
      DepthBelowLeafCount(first);
      DepthBelowLeafCount(second);
  }

  lemma {:induction false} VisitIdentity(graph: Graph, valid: Option<set<string>>, value: Value, tree: Tree, depth: nat, seen: set<string>)
    requires Represents(graph, value, tree) && Percentages(tree)
    requires Distinct(LeavesOf(tree)) && forall x :: x in LeavesOf(tree) ==> ValidId(valid, x) && x !in seen
    requires |seen| + |LeavesOf(tree)| <= MAX_TERMINAL_PANES && depth + Height(tree) <= MAX_DEPTH
    ensures Visit(graph, valid, value, depth, seen) == (Some(tree), seen + SetOf(LeavesOf(tree)))
    ensures |seen + SetOf(LeavesOf(tree))| == |seen| + |LeavesOf(tree)|
    decreases tree
  {
    match tree {
      case Leaf(id) =>
        assert id in LeavesOf(tree) && |seen| < MAX_TERMINAL_PANES;
        assert SetOf([id]) == {id};
      case Split(_, _, _, _) =>
        SplitIdentity(graph, valid, value, tree, depth, seen);
    }
  }

  lemma {:induction false} SplitIdentity(graph: Graph, valid: Option<set<string>>, value: Value, tree: Tree, depth: nat, seen: set<string>)
    requires tree.Split? && Represents(graph, value, tree) && Percentages(tree)
    requires Distinct(LeavesOf(tree)) && forall x :: x in LeavesOf(tree) ==> ValidId(valid, x) && x !in seen
    requires |seen| + |LeavesOf(tree)| <= MAX_TERMINAL_PANES && depth + Height(tree) <= MAX_DEPTH
    ensures Visit(graph, valid, value, depth, seen) == (Some(tree), seen + SetOf(LeavesOf(tree)))
    ensures |seen + SetOf(LeavesOf(tree))| == |seen| + |LeavesOf(tree)|
    decreases tree, 0
  {
    hide Visit, ValidId, SetOf, Distinct, Branch;
    var fields := FieldsOf(graph, value.ref);
    var first, second := tree.first, tree.second;
    var a, b := LeavesOf(first), LeavesOf(second);
    SplitDistinct(a, b);
    assert forall x :: x in a || x in b ==> x in LeavesOf(tree);
    VisitIdentity(graph, valid, fields.first, first, depth + 1, seen);
    VisitIdentity(graph, valid, fields.second, second, depth + 1, seen + SetOf(a));
    SetOfAppend(seen, a, b);
    BranchOf(fields, tree);
    IdentityStep(graph, valid, value.ref, depth, seen, Some(first), seen + SetOf(a), Some(second), seen + SetOf(a + b));
  }

  lemma SetOfAppend(seen: set<string>, a: seq<string>, b: seq<string>)
    ensures seen + SetOf(a) + SetOf(b) == seen + SetOf(a + b)
  {
  }

  lemma BranchOf(fields: Fields, tree: Tree)
    requires tree.Split? && DirectionOf(fields.direction) == Some(tree.direction)
    requires fields.splitPercentage == Number(tree.percentage) && 1.0 <= tree.percentage <= 99.0
    ensures Branch(fields, Some(tree.first), Some(tree.second)) == Some(tree)
  {
  }

  lemma IdentityStep(graph: Graph, valid: Option<set<string>>, ref: nat, depth: nat, seen: set<string>,
                     first: Option<Tree>, seen1: set<string>, second: Option<Tree>, seen2: set<string>)
    requires depth <= MAX_DEPTH && |seen| < MAX_TERMINAL_PANES
    requires DirectionOf(FieldsOf(graph, ref).direction).Some?
    requires Visit(graph, valid, FieldsOf(graph, ref).first, depth + 1, seen) == (first, seen1)
    requires Visit(graph, valid, FieldsOf(graph, ref).second, depth + 1, seen1) == (second, seen2)
    ensures Visit(graph, valid, Object(ref), depth, seen) == (Branch(FieldsOf(graph, ref), first, second), seen2)
  {
  }

  lemma SplitDistinct(a: seq<string>, b: seq<string>)
    requires Distinct(a + b)
    ensures Distinct(a) && Distinct(b) && forall x :: x in b ==> x !in SetOf(a)
  {
    var all := a + b;
    assert forall i :: 0 <= i < |a| ==> all[i] == a[i];
    assert forall j :: 0 <= j < |b| ==> all[|a| + j] == b[j];
    forall x | x in b ensures x !in SetOf(a) {
      var j :| 0 <= j < |b| && b[j] == x;
      assert all[|a| + j] == x;
    }
  }

  /** Sanitizing is the identity on every tree of at most nine distinct valid leaves and percentages from 1
      to 99, however the tree is laid out in memory. */
  lemma SanitizeIdentity(graph: Graph, value: Value, tree: Option<Tree>, valid: Option<set<string>>)
    requires RepresentsOption(graph, value, tree) && Proper(tree, valid)
    ensures SanitizeTree(graph, value, valid) == tree
  {
    if tree.Some? {
      DepthBelowLeafCount(tree.value);
      VisitIdentity(graph, valid, value, tree.value, 0, {});
    }
  }

  /** Sanitizing twice is sanitizing once, whatever the input was. */
  lemma SanitizeIdempotent(graph: Graph, value: Value, valid: Option<set<string>>, graph': Graph, value': Value)
    requires RepresentsOption(graph', value', SanitizeTree(graph, value, valid))
    ensures SanitizeTree(graph', value', valid) == SanitizeTree(graph, value, valid)
  {
    SanitizedLeaves(graph, value, valid);
    SanitizeIdentity(graph', value', SanitizeTree(graph, value, valid), valid);
  }

  // ----- Sanitizing the program's own trees -----

  /** A tree laid out as objects, numbered from `next` on. */
  function Embed(tree: Tree, next: nat): (laid: (Graph, Value, nat))
    ensures laid.2 >= next && forall ref :: ref in laid.0 ==> next <= ref < laid.2
  {
    match tree
    case Leaf(id) => (map[], Text(id), next)
    case Split(direction, first, second, percentage) =>
      var (g1, v1, n1) := Embed(first, next + 1);
      var (g2, v2, n2) := Embed(second, n1);
      var name := if direction == Row then "row" else "column";
      ((g1 + g2)[next := Fields(Text(name), v1, v2, Number(percentage))], Object(next), n2)
  }

  lemma EmbedParts(tree: Tree, next: nat)
    requires tree.Split?
    ensures var (graph, value, _) := Embed(tree, next);
            var (g1, v1, n1) := Embed(tree.first, next + 1);
            var (g2, v2, _) := Embed(tree.second, n1);
            && value == Object(next) && next in graph
            && graph[next] == Fields(Text(if tree.direction == Row then "row" else "column"), v1, v2, Number(tree.percentage))
            && (forall ref :: ref in g1 ==> ref in graph && graph[ref] == g1[ref])
            && (forall ref :: ref in g2 ==> ref in graph && graph[ref] == g2[ref])
  {
  }

  lemma {:induction false} EmbedRepresents(tree: Tree, next: nat, graph: Graph)
    requires forall ref :: ref in Embed(tree, next).0 ==> ref in graph && graph[ref] == Embed(tree, next).0[ref]
    ensures Represents(graph, Embed(tree, next).1, tree)
  {
    match tree
    case Leaf(_) =>
    case Split(_, first, second, _) =>
      hide Embed;
      EmbedParts(tree, next);
      EmbedRepresents(first, next + 1, graph);
      EmbedRepresents(second, Embed(first, next + 1).2, graph);
  }

  /** Sanitizing a tree of the program's own. */
  function SanitizeOwn(tree: Option<Tree>): Option<Tree> {
    if tree.None? then SanitizeTree(map[], Other, None)
    else
      var laid := Embed(tree.value, 0);
      SanitizeTree(laid.0, laid.1, None)
  }

  lemma {:induction false} OfferedOfTree(graph: Graph, value: Value, tree: Tree, depth: nat)
    requires Represents(graph, value, tree)
    ensures forall x :: x in Offered(graph, value, depth) ==> x in LeavesOf(tree)
    ensures depth + Height(tree) <= MAX_DEPTH ==> Offered(graph, value, depth) == LeavesOf(tree)
    decreases tree
  {
    match tree
    case Leaf(_) =>
    case Split(_, first, second, _) =>
      var fields := FieldsOf(graph, value.ref);
      OfferedOfTree(graph, fields.first, first, depth + 1);
      OfferedOfTree(graph, fields.second, second, depth + 1);
  }

  /** Sanitizing an own tree invents no leaf; when the tree is not too deep, its first nine distinct valid
      leaves remain, in order; a proper tree remains as it is. */
  lemma SanitizeOwnMeaning(tree: Option<Tree>)
    ensures Proper(SanitizeOwn(tree), None)
    ensures forall x :: x in GetLeaves(SanitizeOwn(tree)) ==> x in GetLeaves(tree)
    ensures tree.Some? && Height(tree.value) <= MAX_DEPTH ==>
              GetLeaves(SanitizeOwn(tree)) == Take(FirstValid(GetLeaves(tree), None), MAX_TERMINAL_PANES)
    ensures Proper(tree, None) ==> SanitizeOwn(tree) == tree
  {
    if tree.Some? {
      var (graph, value, _) := Embed(tree.value, 0);
      EmbedRepresents(tree.value, 0, graph);
      OfferedOfTree(graph, value, tree.value, 0);
      SanitizedLeaves(graph, value, None);
      if Proper(tree, None) {
        SanitizeIdentity(graph, value, tree, None);
      }
    } else {
      SanitizedLeaves(map[], Other, None);
    }
  }
}
