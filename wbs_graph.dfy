/** The work-breakdown-structure canvas of the graphical interface: the
    id-based tree layout (`TreeStructureHandler.make_tree`, a parent sits at
    the midpoint of its outermost children), the canvas's `organize`, its
    handler lookup, and the guarded `tree_link`. */
module WbsGraph {
  import opened Base
  import opened Tasks
  import opened Grid

  const TaskDefaultWidthStep: real := 200.0
  const TaskDefaultHeightStep: int := 100

  /** `start_id`'s default: the synthetic node that stands for a list of roots. */
  const NoStart: int := -1

  /** One entry of a layout: a technical id, its column and its row. */
  type Entry = Placed<int>

  /** `id_to_graphical_handler`: the position of the first handler whose task
      has the id; `None` where the source's `next` raises `StopIteration`. */
  function IdToGraphicalHandler(handlers: seq<int>, id: int): (r: Option<nat>)
    ensures r.None? <==> id !in handlers
    ensures r.Some? ==> r.value < |handlers| && handlers[r.value] == id && id !in handlers[..r.value]
  {
    if |handlers| == 0 then None
    else if handlers[0] == id then Some(0)
    else match IdToGraphicalHandler(handlers[1..], id)
      case None => None
      case Some(i) =>
        assert handlers[..i + 1] == [handlers[0]] + handlers[1..][..i];
        Some(i + 1)
  }

  // ---------------------------------------------------------------------
  // The tree `make_tree` walks

  /** The children relation, followed from any ranked task, strictly lowers a
      rank, so it has no cycle. Ranked tasks are registered and none uses the
      sentinel id. */
  ghost predicate Ranked(g: map<int, Task>, rank: map<int, nat>)
  {
    && (forall id | id in rank :: id != NoStart && id in g)
    && (forall id | id in rank && id in g :: RankedBelow(rank, g[id].children, rank[id]))
  }

  /** Every listed task is ranked. */
  ghost predicate AllRanked(rank: map<int, nat>, ids: seq<int>)
  {
    forall i | 0 <= i < |ids| :: ids[i] in rank
  }

  /** Every listed task is ranked below `bound`. */
  ghost predicate RankedBelow(rank: map<int, nat>, kids: seq<int>, bound: nat)
  {
    forall i | 0 <= i < |kids| :: kids[i] in rank && rank[kids[i]] < bound
  }

  /** A rank above that of every listed task. */
  ghost function RankBound(rank: map<int, nat>, kids: seq<int>): (b: nat)
    requires AllRanked(rank, kids)
    ensures RankedBelow(rank, kids, b)
  {
    if |kids| == 0 then 0
    else
      var k := kids[0];
      var rest := RankBound(rank, kids[1..]);
      if rank[k] < rest then rest else rank[k] + 1
  }

  /** A task and, in order, the trees of its children. */
  datatype Tree = Node(id: int, kids: seq<Tree>)

  /** The ids of a list of trees' roots. */
  function Ids(ts: seq<Tree>): (ids: seq<int>)
    ensures |ids| == |ts| && forall i | 0 <= i < |ts| :: ids[i] == ts[i].id
  {
    seq(|ts|, i requires 0 <= i < |ts| => ts[i].id)
  }

  /** No id below the root of a tree is the sentinel. */
  predicate Proper(t: Tree)
    decreases t, 1
  {
    ProperForest(t.kids)
  }

  /** No root of a list of trees, and no id below them, is the sentinel. */
  predicate ProperForest(ts: seq<Tree>)
    decreases ts, 0
  {
    |ts| == 0 || (ProperForest(ts[..|ts| - 1]) && ts[|ts| - 1].id != NoStart && Proper(ts[|ts| - 1]))
  }

  /** The tree of a ranked task: the task and, in order, its children's
      trees, down to the tasks without children. */
  ghost function Unfold(g: map<int, Task>, rank: map<int, nat>, id: int): (t: Tree)
    requires Ranked(g, rank) && id in rank
    ensures t.id == id
    decreases rank[id], 1, 0
  {
    Node(id, UnfoldAll(g, rank, g[id].children, rank[id]))
  }

  /** The trees of a list of tasks ranked below `bound`. */
  ghost function UnfoldAll(g: map<int, Task>, rank: map<int, nat>, kids: seq<int>, bound: nat): (ts: seq<Tree>)
    requires Ranked(g, rank) && RankedBelow(rank, kids, bound)
    ensures |ts| == |kids|
    decreases bound, 0, |kids|
  {
    if |kids| == 0 then []
    else UnfoldAll(g, rank, kids[..|kids| - 1], bound) + [Unfold(g, rank, kids[|kids| - 1])]
  }

  /** What `make_tree(start_id, x_offset, y, id_list)` walks: the trees of
      `id_list` when it is given, otherwise those of the task's own children,
      under `start_id`. */
  ghost function RootOf(g: map<int, Task>, rank: map<int, nat>, start: int, ids: Option<seq<int>>): (t: Tree)
    requires Ranked(g, rank)
    requires ids.None? ==> start in rank
    requires ids.Some? ==> AllRanked(rank, ids.value)
    ensures t.id == start
  {
    if ids.Some? then Node(start, UnfoldAll(g, rank, ids.value, RankBound(rank, ids.value)))
    else Unfold(g, rank, start)
  }

  /** No tree of a ranked task holds the sentinel: ranked ids never are. */
  lemma {:induction false} UnfoldProper(g: map<int, Task>, rank: map<int, nat>, id: int)
    requires Ranked(g, rank) && id in rank
    ensures Proper(Unfold(g, rank, id))
    decreases rank[id], 1, 0
  {
    UnfoldAllProper(g, rank, g[id].children, rank[id]);
  }

  lemma {:induction false} UnfoldAllProper(g: map<int, Task>, rank: map<int, nat>, kids: seq<int>, bound: nat)
    requires Ranked(g, rank) && RankedBelow(rank, kids, bound)
    ensures ProperForest(UnfoldAll(g, rank, kids, bound))
    decreases bound, 0, |kids|
  {
    if |kids| > 0 {
      var init := kids[..|kids| - 1];
      var last := kids[|kids| - 1];
      UnfoldAllProper(g, rank, init, bound);
      UnfoldProper(g, rank, last);
      var ts := UnfoldAll(g, rank, kids, bound);
      assert ts[..|kids| - 1] == UnfoldAll(g, rank, init, bound);
    }
  }

  lemma RootProper(g: map<int, Task>, rank: map<int, nat>, start: int, ids: Option<seq<int>>)
    requires Ranked(g, rank)
    requires ids.None? ==> start in rank
    requires ids.Some? ==> AllRanked(rank, ids.value)
    ensures Proper(RootOf(g, rank, start, ids))
  {
    if ids.Some? {
      UnfoldAllProper(g, rank, ids.value, RankBound(rank, ids.value));
    } else {
      UnfoldProper(g, rank, start);
    }
  }

  // ---------------------------------------------------------------------
  // Columns

  /** The column of a layout's last entry. */
  function LastCol(t: seq<Entry>): real
    requires |t| > 0
  {
    t[|t| - 1].col
  }

  /** `x_of_children`: the columns of the entries whose id is one of `kids`,
      in order. */
  function ChildColumns(t: seq<Entry>, kids: seq<int>): (xs: seq<real>)
    ensures |xs| <= |t|
    ensures forall c | c in xs :: exists k | 0 <= k < |t| :: t[k].node in kids && t[k].col == c
    ensures |t| > 0 && t[|t| - 1].node in kids ==> |xs| > 0 && xs[|xs| - 1] == t[|t| - 1].col
  {
    if |t| == 0 then []
    else ChildColumns(t[..|t| - 1], kids) + (if t[|t| - 1].node in kids then [t[|t| - 1].col] else [])
  }

  /** `x_pos_parent`: the only child's column, or the midpoint of the
      smallest and the largest. */
  function ParentColumn(xs: seq<real>): (c: real)
    requires |xs| > 0
    ensures MinOf(xs) <= c <= MaxOf(xs)
    ensures |xs| == 1 ==> c == xs[0]
  {
    assert MinOf(xs) <= xs[0] <= MaxOf(xs);
    if |xs| == 1 then MaxOf(xs) else (MaxOf(xs) + MinOf(xs)) / 2.0
  }

  lemma ConcatLast(ss: seq<seq<Entry>>)
    requires |ss| > 0 && |ss[|ss| - 1]| > 0
    ensures |Concat(ss)| > 0
    ensures Concat(ss)[|Concat(ss)| - 1] == ss[|ss| - 1][|ss[|ss| - 1]| - 1]
  {
  }

  // ---------------------------------------------------------------------
  // The layout

  /** What `make_tree` returns for a tree: every subtree laid out
      depth-first one row down, then the node itself (not the sentinel), at
      the column computed from its children's. A node without children is a
      single cell at the current offset. The sentinel never occurs below the
      root, as `make_tree` could not look it up. */
  function Place(t: Tree, x: real, y: int): (p: seq<Entry>)
    requires Proper(t)
    ensures |p| > 0
    ensures t.id != NoStart ==> p[|p| - 1].node == t.id
    decreases t, 1
  {
    if |t.kids| == 0 then [Placed(t.id, x, y)]
    else
      var ss := PlaceForest(t.kids, x, y + 1);
      var below := Concat(ss);
      ConcatLast(ss);
      var kids := Ids(t.kids);
      assert kids[|kids| - 1] in kids;
      var px := ParentColumn(ChildColumns(below, kids));
      if t.id != NoStart then below + [Placed(t.id, px, y)] else below
  }

  /** The `child_tree` of each pass of `make_tree`'s loop: each tree laid out
      at row `y`, the first at offset `x`, each next one past the largest
      column of the one before. */
  function PlaceForest(ts: seq<Tree>, x: real, y: int): (ss: seq<seq<Entry>>)
    requires ProperForest(ts)
    ensures |ss| == |ts|
    ensures |ss| > 0 ==> |ss[|ss| - 1]| > 0 && ss[|ss| - 1][|ss[|ss| - 1]| - 1].node == ts[|ts| - 1].id
    decreases ts, 0
  {
    if |ts| == 0 then []
    else
      var before := PlaceForest(ts[..|ts| - 1], x, y);
      before + [Place(ts[|ts| - 1], NextOffset(before, x), y)]
  }

  /** `make_tree(start_id, x_offset, y, id_list)` on the tasks of `g`. */
  ghost function Layout(g: map<int, Task>, rank: map<int, nat>, start: int, x: real, y: int, ids: Option<seq<int>>)
    : (p: seq<Entry>)
    requires Ranked(g, rank)
    requires ids.None? ==> start in rank
    requires ids.Some? ==> AllRanked(rank, ids.value)
    ensures |p| > 0
  {
    RootProper(g, rank, start, ids);
    Place(RootOf(g, rank, start, ids), x, y)
  }

  /** The subtrees `make_tree`'s loop has laid out after its first `n` passes
      over `kids`. */
  ghost function Forest(g: map<int, Task>, rank: map<int, nat>, kids: seq<int>, n: nat, x: real, y: int, bound: nat)
    : (ss: seq<seq<Entry>>)
    requires Ranked(g, rank) && RankedBelow(rank, kids, bound) && n <= |kids|
    ensures |ss| == n && (n > 0 ==> |ss[n - 1]| > 0)
  {
    assert RankedBelow(rank, kids[..n], bound);
    UnfoldAllProper(g, rank, kids[..n], bound);
    PlaceForest(UnfoldAll(g, rank, kids[..n], bound), x, y)
  }

  /** One more pass of the loop: the next child laid out after the others,
      at the offset they leave. */
  lemma ForestSnoc(g: map<int, Task>, rank: map<int, nat>, kids: seq<int>, i: nat, x: real, y: int, bound: nat)
    requires Ranked(g, rank) && RankedBelow(rank, kids, bound) && i < |kids|
    ensures kids[i] in rank
    ensures |Forest(g, rank, kids, i, x, y, bound)| > 0 ==>
      |Forest(g, rank, kids, i, x, y, bound)[|Forest(g, rank, kids, i, x, y, bound)| - 1]| > 0
    ensures Forest(g, rank, kids, i + 1, x, y, bound)
         == Forest(g, rank, kids, i, x, y, bound)
          + [Layout(g, rank, kids[i], NextOffset(Forest(g, rank, kids, i, x, y, bound), x), y, None)]
  {
    UnfoldAllSnoc(g, rank, kids, i, bound);
    UnfoldAllProper(g, rank, kids[..i + 1], bound);
    PlaceForestSnoc(UnfoldAll(g, rank, kids[..i], bound), Unfold(g, rank, kids[i]), x, y);
  }

  /** Before the loop's first pass: no subtrees, the offset at `x`. */
  lemma ForestStart(g: map<int, Task>, rank: map<int, nat>, kids: seq<int>, x: real, y: int, bound: nat)
    requires Ranked(g, rank) && RankedBelow(rank, kids, bound)
    ensures Forest(g, rank, kids, 0, x, y, bound) == []
    ensures NextOffset(Forest(g, rank, kids, 0, x, y, bound), x) == x
    ensures Concat(Forest(g, rank, kids, 0, x, y, bound)) == []
  {
  }

  /** One pass of `make_tree`'s loop, given the subtree it lays out. */
  lemma LoopStep(g: map<int, Task>, rank: map<int, nat>, kids: seq<int>, i: nat, x: real, y: int, bound: nat,
                 done: seq<seq<Entry>>, child: seq<Entry>)
    requires Ranked(g, rank) && RankedBelow(rank, kids, bound) && i < |kids| && kids[i] in rank
    requires done == Forest(g, rank, kids, i, x, y, bound)
    requires child == Layout(g, rank, kids[i], NextOffset(done, x), y, None)
    ensures done + [child] == Forest(g, rank, kids, i + 1, x, y, bound)
    ensures NextOffset(done + [child], x) == MaxOf(Cols(child)) + 1.0
    ensures Concat(done + [child]) == Concat(done) + child
  {
    ForestSnoc(g, rank, kids, i, x, y, bound);
    ConcatSnoc(done, child);
  }

  /** `Place` of a node with children, in terms of its subtrees. */
  lemma PlaceWithKids(t: Tree, x: real, y: int)
    requires Proper(t) && |t.kids| > 0
    ensures |ChildColumns(Concat(PlaceForest(t.kids, x, y + 1)), Ids(t.kids))| > 0
    ensures Place(t, x, y)
         == Concat(PlaceForest(t.kids, x, y + 1))
          + (if t.id != NoStart
             then [Placed(t.id, ParentColumn(ChildColumns(Concat(PlaceForest(t.kids, x, y + 1)), Ids(t.kids))), y)]
             else [])
  {
    var ss := PlaceForest(t.kids, x, y + 1);
    ConcatLast(ss);
    var kids := Ids(t.kids);
    assert kids[|kids| - 1] in kids;
  }

  /** One more tree laid out after the others. */
  lemma PlaceForestSnoc(ts: seq<Tree>, t: Tree, x: real, y: int)
    requires ProperForest(ts + [t])
    ensures ProperForest(ts) && Proper(t)
    ensures PlaceForest(ts + [t], x, y)
         == PlaceForest(ts, x, y) + [Place(t, NextOffset(PlaceForest(ts, x, y), x), y)]
  {
    assert (ts + [t])[..|ts|] == ts;
  }

  /** One more child's tree after the others'. */
  lemma UnfoldAllSnoc(g: map<int, Task>, rank: map<int, nat>, kids: seq<int>, i: nat, bound: nat)
    requires Ranked(g, rank) && RankedBelow(rank, kids, bound) && i < |kids|
    ensures RankedBelow(rank, kids[..i], bound) && RankedBelow(rank, kids[..i + 1], bound)
    ensures UnfoldAll(g, rank, kids[..i + 1], bound)
         == UnfoldAll(g, rank, kids[..i], bound) + [Unfold(g, rank, kids[i])]
  {
    assert kids[..i + 1][..i] == kids[..i];
  }

  /** The roots of the children's trees are the children. */
  lemma {:induction false} UnfoldAllIds(g: map<int, Task>, rank: map<int, nat>, kids: seq<int>, bound: nat)
    requires Ranked(g, rank) && RankedBelow(rank, kids, bound)
    ensures Ids(UnfoldAll(g, rank, kids, bound)) == kids
    decreases |kids|
  {
    if |kids| > 0 {
      var init := kids[..|kids| - 1];
      UnfoldAllIds(g, rank, init, bound);
      var ts := UnfoldAll(g, rank, kids, bound);
      assert ts[..|kids| - 1] == UnfoldAll(g, rank, init, bound);
      assert forall i | 0 <= i < |kids| - 1 :: ts[i] == ts[..|kids| - 1][i];
    }
  }

  /** `TreeStructureHandler.make_tree`. The children of a node are fetched
      through the canvas's handler list, as the source does. */
  method MakeTree(g: map<int, Task>, handlers: seq<int>, ghost rank: map<int, nat>,
                  start: int, x: real, y: int, ids: Option<seq<int>>)
    returns (tree: seq<Entry>)
    requires Ranked(g, rank) && forall id | id in rank :: id in handlers
    requires ids.None? ==> start in rank
    requires ids.Some? ==> AllRanked(rank, ids.value)
    ensures tree == Layout(g, rank, start, x, y, ids)
    decreases if ids.None? then 0 else 1, if ids.None? then rank[start] else 0, 2
  {
    var children: seq<int>;
    if ids.Some? {
      children := ids.value;
    } else {
      var h := IdToGraphicalHandler(handlers, start);
      children := g[handlers[h.value]].children;
    }
    ghost var bound := if ids.Some? then RankBound(rank, children) else rank[start];
    ghost var root := RootOf(g, rank, start, ids);
    assert root.kids == UnfoldAll(g, rank, children, bound);
    if |children| == 0 {
      return [Placed(start, x, y)];
    }
    tree := MakeSubtrees(g, handlers, rank, children, x, y + 1, bound);
    assert children[..|children|] == children;
    UnfoldAllIds(g, rank, children, bound);
    RootProper(g, rank, start, ids);
    PlaceWithKids(root, x, y);
    var parentCol := ParentColumn(ChildColumns(tree, children));
    if start != NoStart {
      tree := tree + [Placed(start, parentCol, y)];
    }
  }

  /** The loop of `make_tree`: each child's subtree in turn, the offset moved
      past the largest column of the last one, and all of them `extend`ed
      into one list. */
  method MakeSubtrees(g: map<int, Task>, handlers: seq<int>, ghost rank: map<int, nat>,
                      children: seq<int>, x: real, y: int, ghost bound: nat)
    returns (tree: seq<Entry>)
    requires Ranked(g, rank) && forall id | id in rank :: id in handlers
    requires RankedBelow(rank, children, bound)
    ensures tree == Concat(Forest(g, rank, children, |children|, x, y, bound))
    decreases 0, bound, 1
  {
    ghost var done: seq<seq<Entry>> := [];
    var offset := x;
    tree := [];
    ForestStart(g, rank, children, x, y, bound);
    for i := 0 to |children|
      invariant done == Forest(g, rank, children, i, x, y, bound)
      invariant offset == NextOffset(done, x)
      invariant tree == Concat(done)
    {
      var childTree := MakeChild(g, handlers, rank, children, i, offset, x, y, bound, done);
      offset := MaxOf(Cols(childTree)) + 1.0;
      done := done + [childTree];
      tree := tree + childTree;
    }
  }

  /** One turn of that loop: the subtree of child `i`, placed at the
      offset the subtrees before it leave. */
  method MakeChild(g: map<int, Task>, handlers: seq<int>, ghost rank: map<int, nat>,
                   children: seq<int>, i: nat, offset: real, x: real, y: int, ghost bound: nat,
                   ghost done: seq<seq<Entry>>)
    returns (childTree: seq<Entry>)
    requires Ranked(g, rank) && forall id | id in rank :: id in handlers
    requires RankedBelow(rank, children, bound) && i < |children|
    requires done == Forest(g, rank, children, i, x, y, bound)
    requires offset == NextOffset(done, x)
    ensures done + [childTree] == Forest(g, rank, children, i + 1, x, y, bound)
    ensures NextOffset(done + [childTree], x) == MaxOf(Cols(childTree)) + 1.0
    ensures Concat(done + [childTree]) == Concat(done) + childTree
    decreases 0, bound, 0
  {
    assert children[i] in rank;
    childTree := MakeTree(g, handlers, rank, children[i], offset, y, None);
    LoopStep(g, rank, children, i, x, y, bound, done, childTree);
  }

  // ---------------------------------------------------------------------
  // Where the entries of a layout land

  lemma {:induction false} ChildColumnsAtLeast(t: seq<Entry>, kids: seq<int>, x: real)
    requires forall k | 0 <= k < |t| :: x <= t[k].col
    ensures forall i | 0 <= i < |ChildColumns(t, kids)| :: x <= ChildColumns(t, kids)[i]
  {
    if |t| > 0 {
      ChildColumnsAtLeast(t[..|t| - 1], kids, x);
    }
  }

  /** `make_tree` keeps to the region right of its offset and below its row. */
  lemma {:induction false} PlaceWithin(t: Tree, x: real, y: int)
    requires Proper(t)
    ensures Within(Place(t, x, y), x, y)
    decreases t, 1
  {
    if |t.kids| > 0 {
      var ss := PlaceForest(t.kids, x, y + 1);
      PlaceForestWithin(t.kids, x, y + 1);
      ConcatWithin(ss, x, y + 1);
      PlaceWithKids(t, x, y);
      var below := Concat(ss);
      var xs := ChildColumns(below, Ids(t.kids));
      ChildColumnsAtLeast(below, Ids(t.kids), x);
      assert MinOf(xs) in xs;
      WithinRaise(below, x, y);
      if t.id != NoStart {
        WithinSnoc(below, Placed(t.id, ParentColumn(xs), y), x, y);
      }
    }
  }

  /** Each subtree of the loop keeps to the region right of the first offset. */
  lemma {:induction false} PlaceForestWithin(ts: seq<Tree>, x: real, y: int)
    requires ProperForest(ts)
    ensures ForestWithin(PlaceForest(ts, x, y), x, y)
    decreases ts, 0
  {
    if |ts| > 0 {
      var before := PlaceForest(ts[..|ts| - 1], x, y);
      PlaceForestWithin(ts[..|ts| - 1], x, y);
      var off := NextOffset(before, x);
      PlaceWithin(ts[|ts| - 1], off, y);
      if |before| > 0 {
        MaxColAtLeast(before[|before| - 1], x, y);
      }
    }
  }

  /** The subtrees of `make_tree`'s loop: none is empty, each lies strictly
      right of the ones before it, and the next offset lies right of all. */
  lemma {:induction false} PlaceForestSeparated(ts: seq<Tree>, x: real, y: int)
    requires ProperForest(ts)
    ensures NonEmpty(PlaceForest(ts, x, y))
    ensures Separated(PlaceForest(ts, x, y))
    ensures LeftOf(PlaceForest(ts, x, y), NextOffset(PlaceForest(ts, x, y), x))
  {
    if |ts| > 0 {
      var init := ts[..|ts| - 1];
      var before := PlaceForest(init, x, y);
      PlaceForestSeparated(init, x, y);
      var off := NextOffset(before, x);
      var s := Place(ts[|ts| - 1], off, y);
      PlaceWithin(ts[|ts| - 1], off, y);
      MaxColAtLeast(s, off, y);
      assert PlaceForest(ts, x, y) == before + [s];
      SeparatedSnoc(before, s, off, y);
      LeftOfSnoc(before, s, off, MaxCol(s) + 1.0);
    }
  }

  // ---------------------------------------------------------------------
  // Which entries name which nodes

  /** `id` names a node strictly below the root of `t`. */
  predicate Below(t: Tree, id: int)
    decreases t, 1
  {
    InForest(t.kids, id)
  }

  /** `id` names a root of `ts` or a node below one. */
  predicate InForest(ts: seq<Tree>, id: int)
    decreases ts, 0
  {
    |ts| > 0 && (InForest(ts[..|ts| - 1], id) || ts[|ts| - 1].id == id || Below(ts[|ts| - 1], id))
  }

  /** `s` lays out the tree `t` at row `y`: it ends with `t`'s own entry
      and every other entry names a node below `t` (post-order). */
  ghost predicate ClosedBy(t: Tree, s: seq<Entry>, y: int)
  {
    && |s| > 0
    && s[|s| - 1].node == t.id && s[|s| - 1].row == y
    && forall k | 0 <= k < |s| - 1 :: Below(t, s[k].node)
  }

  /** Each of `ss` lays out the tree of `ts` at the same position. */
  ghost predicate ForestClosed(ts: seq<Tree>, ss: seq<seq<Entry>>, y: int)
  {
    |ts| == |ss| && forall j | 0 <= j < |ts| :: ClosedBy(ts[j], ss[j], y)
  }

  /** Every entry of `p` names a node of the forest `ts`. */
  ghost predicate NodesIn(p: seq<Entry>, ts: seq<Tree>)
  {
    forall k | 0 <= k < |p| :: InForest(ts, p[k].node)
  }

  /** Post-order: a tree's layout ends with its own entry, at row `y`, and
      every other entry names a node below it. */
  lemma {:induction false} PlaceNodes(t: Tree, x: real, y: int)
    requires Proper(t) && t.id != NoStart
    ensures ClosedBy(t, Place(t, x, y), y)
    decreases t, 1
  {
    if |t.kids| > 0 {
      var ss := PlaceForest(t.kids, x, y + 1);
      ForestNodes(t.kids, x, y + 1);
      PlaceWithKids(t, x, y);
      BelowOfForest(t, Concat(ss), Placed(t.id, ParentColumn(ChildColumns(Concat(ss), Ids(t.kids))), y));
    }
  }

  /** The ids of `t` in post-order: each subtree in turn, then the root. */
  function PostOrder(t: Tree): seq<int>
    decreases t, 1
  {
    PostOrderForest(t.kids) + [t.id]
  }

  function PostOrderForest(ts: seq<Tree>): seq<int>
    decreases ts, 0
  {
    if |ts| == 0 then [] else PostOrderForest(ts[..|ts| - 1]) + PostOrder(ts[|ts| - 1])
  }

  /** `make_tree` gives every node of the tree exactly one entry per
      occurrence, children before their parent and siblings left to right;
      the sentinel root gets none unless it is alone, as the placeholder. */
  lemma {:induction false} PlaceOrder(t: Tree, x: real, y: int)
    requires Proper(t)
    ensures t.id != NoStart || |t.kids| == 0 ==> Nodes(Place(t, x, y)) == PostOrder(t)
    ensures t.id == NoStart && |t.kids| > 0 ==> Nodes(Place(t, x, y)) == PostOrderForest(t.kids)
    decreases t, 1
  {
    if |t.kids| == 0 {
      assert PostOrderForest(t.kids) == [];
    } else {
      var below := Concat(PlaceForest(t.kids, x, y + 1));
      PlaceForestOrder(t.kids, x, y + 1);
      PlaceWithKids(t, x, y);
      if t.id != NoStart {
        var e := Placed(t.id, ParentColumn(ChildColumns(below, Ids(t.kids))), y);
        assert Place(t, x, y) == below + [e];
        NodesAppend(below, [e]);
        assert Nodes([e]) == [t.id];
      } else {
        assert Place(t, x, y) == below;
      }
    }
  }

  /** The loop's subtrees together list the forest's nodes in post-order. */
  lemma {:induction false} PlaceForestOrder(ts: seq<Tree>, x: real, y: int)
    requires ProperForest(ts)
    ensures Nodes(Concat(PlaceForest(ts, x, y))) == PostOrderForest(ts)
    decreases ts, 0
  {
    if |ts| > 0 {
      var init := ts[..|ts| - 1];
      var before := PlaceForest(init, x, y);
      PlaceForestOrder(init, x, y);
      var s := Place(ts[|ts| - 1], NextOffset(before, x), y);
      PlaceOrder(ts[|ts| - 1], NextOffset(before, x), y);
      assert PlaceForest(ts, x, y) == before + [s];
      ConcatSnoc(before, s);
      NodesAppend(Concat(before), s);
    }
  }

  lemma BelowOfForest(t: Tree, below: seq<Entry>, e: Entry)
    requires NodesIn(below, t.kids)
    ensures forall k | 0 <= k < |below + [e]| - 1 :: Below(t, (below + [e])[k].node)
  {
    forall k | 0 <= k < |below + [e]| - 1 ensures Below(t, (below + [e])[k].node) {
      assert (below + [e])[k] == below[k];
    }
  }

  /** Every entry of the loop's subtrees names a node of the forest. */
  lemma {:induction false} ForestNodes(ts: seq<Tree>, x: real, y: int)
    requires ProperForest(ts)
    ensures NodesIn(Concat(PlaceForest(ts, x, y)), ts)
    decreases ts, 0
  {
    if |ts| > 0 {
      var init := ts[..|ts| - 1];
      var t := ts[|ts| - 1];
      var before := PlaceForest(init, x, y);
      ForestNodes(init, x, y);
      var s := Place(t, NextOffset(before, x), y);
      PlaceNodes(t, NextOffset(before, x), y);
      assert PlaceForest(ts, x, y) == before + [s];
      ConcatSnoc(before, s);
      NodesInSnoc(ts, Concat(before), s, y);
    }
  }

  lemma NodesInSnoc(ts: seq<Tree>, p: seq<Entry>, s: seq<Entry>, y: int)
    requires |ts| > 0 && NodesIn(p, ts[..|ts| - 1]) && ClosedBy(ts[|ts| - 1], s, y)
    ensures NodesIn(p + s, ts)
  {
    forall k | 0 <= k < |p + s| ensures InForest(ts, (p + s)[k].node) {
      if k >= |p| {
        assert (p + s)[k] == s[k - |p|];
      }
    }
  }

  /** Each subtree of the loop ends with the entry of the child it lays out,
      at row `y`; every other entry of it names a node below that child. */
  lemma {:induction false} PlaceForestNodes(ts: seq<Tree>, x: real, y: int)
    requires ProperForest(ts)
    ensures ForestClosed(ts, PlaceForest(ts, x, y), y)
  {
    if |ts| > 0 {
      var init := ts[..|ts| - 1];
      var t := ts[|ts| - 1];
      var before := PlaceForest(init, x, y);
      PlaceForestNodes(init, x, y);
      var s := Place(t, NextOffset(before, x), y);
      PlaceNodes(t, NextOffset(before, x), y);
      ClosedBySnoc(init, before, t, s, y);
      assert PlaceForest(ts, x, y) == before + [s];
      assert init + [t] == ts;
    }
  }

  lemma ClosedBySnoc(ts: seq<Tree>, ss: seq<seq<Entry>>, t: Tree, s: seq<Entry>, y: int)
    requires ForestClosed(ts, ss, y) && ClosedBy(t, s, y)
    ensures ForestClosed(ts + [t], ss + [s], y)
  {
    assert forall j | 0 <= j < |ts| :: (ts + [t])[j] == ts[j] && (ss + [s])[j] == ss[j];
  }

  // ---------------------------------------------------------------------
  // The parent's column

  /** The column of the last entry of each subtree. */
  function LastCols(ss: seq<seq<Entry>>): (xs: seq<real>)
    requires NonEmpty(ss)
    ensures |xs| == |ss| && forall j | 0 <= j < |ss| :: xs[j] == LastCol(ss[j])
  {
    seq(|ss|, j requires 0 <= j < |ss| => LastCol(ss[j]))
  }

  ghost predicate Increasing(xs: seq<real>)
  {
    forall i, j | 0 <= i < j < |xs| :: xs[i] < xs[j]
  }

  lemma IncreasingExtremes(xs: seq<real>)
    requires |xs| > 0 && Increasing(xs)
    ensures MinOf(xs) == xs[0] && MaxOf(xs) == xs[|xs| - 1]
  {
  }

  lemma {:induction false} ChildColumnsAppend(a: seq<Entry>, b: seq<Entry>, kids: seq<int>)
    ensures ChildColumns(a + b, kids) == ChildColumns(a, kids) + ChildColumns(b, kids)
  {
    if |b| > 0 {
      var init := b[..|b| - 1];
      ChildColumnsAppend(a, init, kids);
      assert (a + b)[..|a + b| - 1] == a + init;
    } else {
      assert a + b == a;
    }
  }

  lemma {:induction false} ChildColumnsNone(t: seq<Entry>, kids: seq<int>)
    requires forall k | 0 <= k < |t| :: t[k].node !in kids
    ensures ChildColumns(t, kids) == []
  {
    if |t| > 0 {
      ChildColumnsNone(t[..|t| - 1], kids);
    }
  }

  /** When each subtree ends with its child's entry and names no child
      anywhere else, the children's columns are those last entries'. */
  lemma {:induction false} ConcatChildColumns(ss: seq<seq<Entry>>, kids: seq<int>)
    requires forall j | 0 <= j < |ss| :: |ss[j]| > 0 && ss[j][|ss[j]| - 1].node in kids
    requires forall j, k | 0 <= j < |ss| && 0 <= k < |ss[j]| - 1 :: ss[j][k].node !in kids
    ensures ChildColumns(Concat(ss), kids) == LastCols(ss)
  {
    if |ss| > 0 {
      var init := ss[..|ss| - 1];
      var s := ss[|ss| - 1];
      assert ss == init + [s];
      ConcatChildColumns(init, kids);
      ConcatChildColumnsSnoc(init, s, kids);
    }
  }

  /** The last entry of a subtree is its only entry for a child id. */
  lemma ChildColumnsOfSubtree(s: seq<Entry>, kids: seq<int>)
    requires |s| > 0 && s[|s| - 1].node in kids
    requires forall k | 0 <= k < |s| - 1 :: s[k].node !in kids
    ensures ChildColumns(s, kids) == [LastCol(s)]
  {
    ChildColumnsNone(s[..|s| - 1], kids);
  }

  lemma ConcatChildColumnsSnoc(init: seq<seq<Entry>>, s: seq<Entry>, kids: seq<int>)
    requires NonEmpty(init) && ChildColumns(Concat(init), kids) == LastCols(init)
    requires |s| > 0 && s[|s| - 1].node in kids
    requires forall k | 0 <= k < |s| - 1 :: s[k].node !in kids
    ensures ChildColumns(Concat(init + [s]), kids) == LastCols(init + [s])
  {
    ConcatSnoc(init, s);
    ChildColumnsAppend(Concat(init), s, kids);
    ChildColumnsOfSubtree(s, kids);
    LastColsSnoc(init, s);
  }

  lemma LastColsSnoc(init: seq<seq<Entry>>, s: seq<Entry>)
    requires NonEmpty(init) && |s| > 0
    ensures NonEmpty(init + [s])
    ensures LastCols(init + [s]) == LastCols(init) + [LastCol(s)]
  {
    var grown := init + [s];
    assert forall j | 0 <= j < |init| :: grown[j] == init[j];
    var lhs, rhs := LastCols(grown), LastCols(init) + [LastCol(s)];
    forall j | 0 <= j < |grown| ensures lhs[j] == rhs[j] {
      if j < |init| {
        assert lhs[j] == LastCol(init[j]) == rhs[j];
      }
    }
  }

  /** Subtrees that each close with their child's entry, where no child's
      id reappears below a child, name a child only in their last entries. */
  lemma ClosedChildren(ts: seq<Tree>, ss: seq<seq<Entry>>, y: int)
    requires ForestClosed(ts, ss, y)
    requires forall j, d | 0 <= j < |ts| && Below(ts[j], d) :: d !in Ids(ts)
    ensures forall j | 0 <= j < |ss| :: |ss[j]| > 0 && ss[j][|ss[j]| - 1].node in Ids(ts)
    ensures forall j, k | 0 <= j < |ss| && 0 <= k < |ss[j]| - 1 :: ss[j][k].node !in Ids(ts)
  {
    forall j | 0 <= j < |ss| ensures |ss[j]| > 0 && ss[j][|ss[j]| - 1].node in Ids(ts) {
      assert ClosedBy(ts[j], ss[j], y);
      assert Ids(ts)[j] == ts[j].id;
    }
    forall j, k | 0 <= j < |ss| && 0 <= k < |ss[j]| - 1 ensures ss[j][k].node !in Ids(ts) {
      assert ClosedBy(ts[j], ss[j], y);
      assert Below(ts[j], ss[j][k].node);
    }
  }

  /** The middle of the first and the last column; a lone column itself. */
  function Midpoint(cs: seq<real>): real
    requires |cs| > 0
  {
    if |cs| == 1 then cs[0] else (cs[0] + cs[|cs| - 1]) / 2.0
  }

  /** On increasing columns `x_pos_parent` is the midpoint of the outermost. */
  lemma ParentColumnMidpoint(cs: seq<real>)
    requires |cs| > 0 && Increasing(cs)
    ensures ParentColumn(cs) == Midpoint(cs)
  {
    IncreasingExtremes(cs);
  }

  lemma SeparatedIncreasing(ss: seq<seq<Entry>>)
    requires NonEmpty(ss) && Separated(ss)
    ensures Increasing(LastCols(ss))
  {
  }

  /** Under a node whose children's ids reappear nowhere below them, the
      columns `x_of_children` collects are the children's own, in order,
      and they increase. */
  lemma KidsChildColumns(t: Tree, x: real, y: int)
    requires Proper(t)
    requires forall j, d | 0 <= j < |t.kids| && Below(t.kids[j], d) :: d !in Ids(t.kids)
    ensures NonEmpty(PlaceForest(t.kids, x, y + 1))
    ensures ChildColumns(Concat(PlaceForest(t.kids, x, y + 1)), Ids(t.kids)) == LastCols(PlaceForest(t.kids, x, y + 1))
    ensures Increasing(LastCols(PlaceForest(t.kids, x, y + 1)))
  {
    var ss := PlaceForest(t.kids, x, y + 1);
    var kids := Ids(t.kids);
    PlaceForestSeparated(t.kids, x, y + 1);
    PlaceForestNodes(t.kids, x, y + 1);
    ClosedChildren(t.kids, ss, y + 1);
    ConcatChildColumns(ss, kids);
    SeparatedIncreasing(ss);
  }

  /** The parent's column in `make_tree`: the midpoint of its first and its
      last child's columns, which are the outermost, as the children's
      columns increase. This holds when no child's id reappears below a
      child. */
  lemma PlaceMidpoint(t: Tree, x: real, y: int)
    requires Proper(t) && t.id != NoStart && |t.kids| > 0
    requires forall j, d | 0 <= j < |t.kids| && Below(t.kids[j], d) :: d !in Ids(t.kids)
    ensures NonEmpty(PlaceForest(t.kids, x, y + 1))
    ensures Increasing(LastCols(PlaceForest(t.kids, x, y + 1)))
    ensures Place(t, x, y)[|Place(t, x, y)| - 1]
         == Placed(t.id, Midpoint(LastCols(PlaceForest(t.kids, x, y + 1))), y)
  {
    KidsChildColumns(t, x, y);
    ParentColumnMidpoint(LastCols(PlaceForest(t.kids, x, y + 1)));
    PlaceWithKids(t, x, y);
  }

  // ---------------------------------------------------------------------
  // The trees of a consistent registry

  lemma {:induction false} UnfoldAllAt(g: map<int, Task>, rank: map<int, nat>, kids: seq<int>, bound: nat)
    requires Ranked(g, rank) && RankedBelow(rank, kids, bound)
    ensures forall j | 0 <= j < |kids| :: kids[j] in rank && UnfoldAll(g, rank, kids, bound)[j] == Unfold(g, rank, kids[j])
    decreases |kids|
  {
    if |kids| > 0 {
      var init := kids[..|kids| - 1];
      UnfoldAllAt(g, rank, init, bound);
      var ts := UnfoldAll(g, rank, kids, bound);
      var us := UnfoldAll(g, rank, init, bound);
      assert ts == us + [Unfold(g, rank, kids[|kids| - 1])];
      assert forall j | 0 <= j < |init| :: init[j] == kids[j];
    }
  }

  /** A node strictly below a task's tree is ranked and has a parent ranked
      no higher than the task. */
  lemma {:induction false} UnfoldParents(g: map<int, Task>, rank: map<int, nat>, id: int, d: int)
    requires Ranked(g, rank) && ChildrenPointBack(g) && id in rank
    requires Below(Unfold(g, rank, id), d)
    ensures d in rank && d in g && g[d].parent.Some?
    ensures g[d].parent.value in rank && rank[g[d].parent.value] <= rank[id]
    decreases rank[id], 1, 0
  {
    UnfoldAllParents(g, rank, g[id].children, rank[id], d);
    assert d in g[id].children ==> g[d].parent == Some(id);
  }

  /** A node of the trees of `kids` is ranked, and is one of `kids` or has a
      parent ranked below `bound`. */
  lemma {:induction false} UnfoldAllParents(g: map<int, Task>, rank: map<int, nat>, kids: seq<int>, bound: nat, d: int)
    requires Ranked(g, rank) && ChildrenPointBack(g) && RankedBelow(rank, kids, bound)
    requires InForest(UnfoldAll(g, rank, kids, bound), d)
    ensures d in rank
    ensures d in kids || (d in g && g[d].parent.Some? && g[d].parent.value in rank && rank[g[d].parent.value] < bound)
    decreases bound, 0, |kids|
  {
    var init := kids[..|kids| - 1];
    var last := kids[|kids| - 1];
    var ts := UnfoldAll(g, rank, kids, bound);
    assert ts[..|kids| - 1] == UnfoldAll(g, rank, init, bound);
    assert ts[|kids| - 1] == Unfold(g, rank, last);
    if InForest(UnfoldAll(g, rank, init, bound), d) {
      UnfoldAllParents(g, rank, init, bound, d);
    } else if Below(Unfold(g, rank, last), d) {
      UnfoldParents(g, rank, last, d);
    }
  }

  /** In a registry whose children name their parent, no child of a task
      reappears below any child of it. */
  lemma UnfoldKidsNotBelow(g: map<int, Task>, rank: map<int, nat>, start: int)
    requires Ranked(g, rank) && ChildrenPointBack(g) && start in rank
    ensures forall j, d | 0 <= j < |Unfold(g, rank, start).kids| && Below(Unfold(g, rank, start).kids[j], d) ::
      d !in Ids(Unfold(g, rank, start).kids)
  {
    var kids := g[start].children;
    var t := Unfold(g, rank, start);
    UnfoldAllIds(g, rank, kids, rank[start]);
    UnfoldAllAt(g, rank, kids, rank[start]);
    forall j, d | 0 <= j < |t.kids| && Below(t.kids[j], d) ensures d !in Ids(t.kids) {
      UnfoldParents(g, rank, kids[j], d);
      assert g[d].parent != Some(start);
    }
  }

  /** No parentless task reappears below the tree of any task. */
  lemma RootsNotBelow(g: map<int, Task>, rank: map<int, nat>, roots: seq<int>)
    requires Ranked(g, rank) && ChildrenPointBack(g) && AllRanked(rank, roots)
    requires forall i | 0 <= i < |roots| :: roots[i] in g && g[roots[i]].parent.None?
    ensures forall j, d | 0 <= j < |RootOf(g, rank, NoStart, Some(roots)).kids| && Below(RootOf(g, rank, NoStart, Some(roots)).kids[j], d) ::
      d !in Ids(RootOf(g, rank, NoStart, Some(roots)).kids)
  {
    var t := RootOf(g, rank, NoStart, Some(roots));
    var bound := RankBound(rank, roots);
    UnfoldAllIds(g, rank, roots, bound);
    UnfoldAllAt(g, rank, roots, bound);
    forall j, d | 0 <= j < |t.kids| && Below(t.kids[j], d) ensures d !in Ids(t.kids) {
      UnfoldParents(g, rank, roots[j], d);
    }
  }

  // ---------------------------------------------------------------------
  // The layout of a consistent registry

  /** The layout of a task is that of its tree, and the loop's subtrees are
      those of its children's trees. */
  lemma LayoutOfTask(g: map<int, Task>, rank: map<int, nat>, start: int, x: real, y: int)
    requires Ranked(g, rank) && start in rank
    ensures Proper(Unfold(g, rank, start)) && start != NoStart
    ensures Layout(g, rank, start, x, y, None) == Place(Unfold(g, rank, start), x, y)
    ensures Forest(g, rank, g[start].children, |g[start].children|, x, y + 1, rank[start])
         == PlaceForest(Unfold(g, rank, start).kids, x, y + 1)
  {
    UnfoldProper(g, rank, start);
    assert g[start].children[..|g[start].children|] == g[start].children;
  }

  /** The layout of a task with children: its children's subtrees, each
      ending with that child's own entry one row down, followed by the
      task's entry at row `y`. */
  lemma LayoutChildren(g: map<int, Task>, rank: map<int, nat>, start: int, x: real, y: int)
    requires Ranked(g, rank) && start in rank && |g[start].children| > 0
    ensures
      var kids := g[start].children;
      var ss := Forest(g, rank, kids, |kids|, x, y + 1, rank[start]);
      && |ss| == |kids|
      && (forall j | 0 <= j < |kids| :: |ss[j]| > 0 && ss[j][|ss[j]| - 1].node == kids[j] && ss[j][|ss[j]| - 1].row == y + 1)
      && |Layout(g, rank, start, x, y, None)| == |Concat(ss)| + 1
      && Layout(g, rank, start, x, y, None)[..|Concat(ss)|] == Concat(ss)
      && Layout(g, rank, start, x, y, None)[|Concat(ss)|].node == start
      && Layout(g, rank, start, x, y, None)[|Concat(ss)|].row == y
  {
    var kids := g[start].children;
    LayoutOfTask(g, rank, start, x, y);
    var t := Unfold(g, rank, start);
    UnfoldAllIds(g, rank, kids, rank[start]);
    var ss: seq<seq<Entry>> := PlaceForest(t.kids, x, y + 1);
    PlaceForestNodes(t.kids, x, y + 1);
    ClosedKids(t.kids, ss, y + 1);
    PlaceWithKids(t, x, y);
  }

  lemma ClosedKids(ts: seq<Tree>, ss: seq<seq<Entry>>, y: int)
    requires ForestClosed(ts, ss, y)
    ensures forall j | 0 <= j < |ts| :: |ss[j]| > 0 && ss[j][|ss[j]| - 1].node == Ids(ts)[j] && ss[j][|ss[j]| - 1].row == y
  {
    forall j: int | 0 <= j < |ts| ensures |ss[j]| > 0 && ss[j][|ss[j]| - 1].node == Ids(ts)[j] && ss[j][|ss[j]| - 1].row == y {
      assert ClosedBy(ts[j], ss[j], y);
    }
  }

  /** Every task of a ranked task's tree gets exactly one entry per
      occurrence, in post-order. */
  lemma LayoutOrder(g: map<int, Task>, rank: map<int, nat>, start: int, x: real, y: int)
    requires Ranked(g, rank) && start in rank
    ensures Nodes(Layout(g, rank, start, x, y, None)) == PostOrder(Unfold(g, rank, start))
  {
    LayoutOfTask(g, rank, start, x, y);
    PlaceOrder(Unfold(g, rank, start), x, y);
  }

  /** The parent's column: with one child that child's column, otherwise
      the midpoint of the first and the last child's, which are the
      outermost, as the children's columns increase left to right. */
  lemma LayoutMidpoint(g: map<int, Task>, rank: map<int, nat>, start: int, x: real, y: int)
    requires Ranked(g, rank) && ChildrenPointBack(g) && start in rank && |g[start].children| > 0
    ensures
      var ss := Forest(g, rank, g[start].children, |g[start].children|, x, y + 1, rank[start]);
      var p := Layout(g, rank, start, x, y, None);
      && NonEmpty(ss)
      && Increasing(LastCols(ss))
      && p[|p| - 1].col == Midpoint(LastCols(ss))
  {
    LayoutOfTask(g, rank, start, x, y);
    UnfoldKidsNotBelow(g, rank, start);
    PlaceMidpoint(Unfold(g, rank, start), x, y);
  }

  /** The children's subtrees occupy disjoint column ranges that increase
      left to right, all right of the offset; the whole layout keeps right
      of the offset and at or below its row. */
  lemma LayoutSiblings(g: map<int, Task>, rank: map<int, nat>, start: int, x: real, y: int)
    requires Ranked(g, rank) && start in rank
    ensures Within(Layout(g, rank, start, x, y, None), x, y)
    ensures
      var kids := g[start].children;
      var ss := Forest(g, rank, kids, |kids|, x, y + 1, rank[start]);
      Separated(ss) && ForestWithin(ss, x, y + 1)
  {
    LayoutOfTask(g, rank, start, x, y);
    var t := Unfold(g, rank, start);
    PlaceWithin(t, x, y);
    PlaceForestSeparated(t.kids, x, y + 1);
    PlaceForestWithin(t.kids, x, y + 1);
  }

  /** `organize`'s layout, of the parentless tasks under the sentinel: with
      none, the lone sentinel entry; otherwise their subtrees side by side
      from column 0, every entry at row 1 or below, each root's own entry
      closing its subtree at row 1. */
  lemma RootsOnTop(g: map<int, Task>, rank: map<int, nat>, roots: seq<int>)
    requires Ranked(g, rank) && AllRanked(rank, roots)
    ensures |roots| == 0 ==> Layout(g, rank, NoStart, 0.0, 0, Some(roots)) == [Placed(NoStart, 0.0, 0)]
    ensures |roots| > 0 ==>
      var ss := Forest(g, rank, roots, |roots|, 0.0, 1, RankBound(rank, roots));
      && Layout(g, rank, NoStart, 0.0, 0, Some(roots)) == Concat(ss)
      && Within(Concat(ss), 0.0, 1)
      && |ss| == |roots|
      && (forall j | 0 <= j < |roots| :: |ss[j]| > 0 && ss[j][|ss[j]| - 1].node == roots[j] && ss[j][|ss[j]| - 1].row == 1)
  {
    if |roots| > 0 {
      var bound := RankBound(rank, roots);
      var t := RootOf(g, rank, NoStart, Some(roots));
      RootProper(g, rank, NoStart, Some(roots));
      UnfoldAllIds(g, rank, roots, bound);
      assert roots[..|roots|] == roots;
      PlaceForestNodes(t.kids, 0.0, 1);
      PlaceForestWithin(t.kids, 0.0, 1);
      PlaceWithKids(t, 0.0, 0);
      var ss: seq<seq<Entry>> := PlaceForest(t.kids, 0.0, 1);
      ConcatWithin(ss, 0.0, 1);
      forall j: int | 0 <= j < |roots| ensures |ss[j]| > 0 && ss[j][|ss[j]| - 1].node == roots[j] && ss[j][|ss[j]| - 1].row == 1 {
        assert ClosedBy(t.kids[j], ss[j], 1);
      }
    }
  }

  lemma {:induction false} UnfoldRanked(g: map<int, Task>, rank: map<int, nat>, id: int, d: int)
    requires Ranked(g, rank) && id in rank && Below(Unfold(g, rank, id), d)
    ensures d in rank
    decreases rank[id], 1, 0
  {
    UnfoldAllRanked(g, rank, g[id].children, rank[id], d);
  }

  /** Every node of the trees of ranked tasks is ranked. */
  lemma {:induction false} UnfoldAllRanked(g: map<int, Task>, rank: map<int, nat>, kids: seq<int>, bound: nat, d: int)
    requires Ranked(g, rank) && RankedBelow(rank, kids, bound)
    requires InForest(UnfoldAll(g, rank, kids, bound), d)
    ensures d in rank
    decreases bound, 0, |kids|
  {
    var init := kids[..|kids| - 1];
    var last := kids[|kids| - 1];
    var ts := UnfoldAll(g, rank, kids, bound);
    assert ts[..|kids| - 1] == UnfoldAll(g, rank, init, bound);
    assert ts[|kids| - 1] == Unfold(g, rank, last);
    if InForest(UnfoldAll(g, rank, init, bound), d) {
      UnfoldAllRanked(g, rank, init, bound, d);
    } else if Below(Unfold(g, rank, last), d) {
      UnfoldRanked(g, rank, last, d);
    }
  }

  /** Every entry of `organize`'s layout, when there are roots, names a
      ranked task. */
  lemma RootsLayoutRanked(g: map<int, Task>, rank: map<int, nat>, roots: seq<int>)
    requires Ranked(g, rank) && AllRanked(rank, roots) && |roots| > 0
    ensures forall k | 0 <= k < |Layout(g, rank, NoStart, 0.0, 0, Some(roots))| ::
      Layout(g, rank, NoStart, 0.0, 0, Some(roots))[k].node in rank
  {
    var bound := RankBound(rank, roots);
    var t := RootOf(g, rank, NoStart, Some(roots));
    RootProper(g, rank, NoStart, Some(roots));
    PlaceWithKids(t, 0.0, 0);
    var below := Concat(PlaceForest(t.kids, 0.0, 1));
    ForestNodes(t.kids, 0.0, 1);
    forall k | 0 <= k < |below| ensures below[k].node in rank {
      UnfoldAllRanked(g, rank, roots, bound, below[k].node);
    }
  }

  // ---------------------------------------------------------------------
  // The canvas

  /** The `id_list` `organize` passes: the ids of the handlers' tasks that
      have no parent, in the handlers' order. */
  function RootIds(g: map<int, Task>, handlers: seq<int>): (roots: seq<int>)
    ensures |roots| <= |handlers|
    ensures forall i | 0 <= i < |roots| :: roots[i] in g && g[roots[i]].parent.None?
    ensures forall id :: id in roots <==> id in handlers && id in g && g[id].parent.None?
  {
    if |handlers| == 0 then []
    else
      var init := handlers[..|handlers| - 1];
      var last := handlers[|handlers| - 1];
      assert handlers == init + [last];
      RootIds(g, init) + (if last in g && g[last].parent.None? then [last] else [])
  }

  /** `[(self.id_to_graphical_handler(task), x, y) for task, x, y in tree]`:
      each entry with the position of its task's handler; `None` where a
      lookup raises `StopIteration`. */
  function Locate(handlers: seq<int>, tree: seq<Entry>): (r: Option<seq<(nat, Entry)>>)
    ensures r.None? <==> exists k | 0 <= k < |tree| :: tree[k].node !in handlers
    ensures r.Some? ==> |r.value| == |tree|
    ensures r.Some? ==> forall k | 0 <= k < |tree| ::
      r.value[k].1 == tree[k] && IdToGraphicalHandler(handlers, tree[k].node) == Some(r.value[k].0)
  {
    if |tree| == 0 then Some([])
    else
      var init := tree[..|tree| - 1];
      var e := tree[|tree| - 1];
      assert forall k | 0 <= k < |init| :: init[k] == tree[k];
      match Locate(handlers, init)
      case None => None
      case Some(located) =>
        match IdToGraphicalHandler(handlers, e.node)
        case None => None
        case Some(h) => Some(located + [(h, e)])
  }

  /** A rectangle's top-left corner on the canvas. */
  datatype Point = Point(x: real, y: int)

  /** Where `organize` moves the rectangle of an entry: one row up, scaled
      by the default steps. */
  function Position(e: Entry): (pt: Point)
    ensures e.row >= 1 ==> pt.y >= 0
    ensures e.row == 1 ==> pt.y == 0
    ensures e.col >= 0.0 ==> pt.x >= 0.0
  {
    Point(e.col * TaskDefaultWidthStep, (e.row - 1) * TaskDefaultHeightStep)
  }

  /** The rectangles' corners after `organize`'s loop has moved, in order,
      the rectangle of each located entry. */
  function Moved(coords: map<nat, Point>, located: seq<(nat, Entry)>): (moved: map<nat, Point>)
    ensures forall h :: h in moved <==> h in coords || exists i | 0 <= i < |located| :: located[i].0 == h
  {
    if |located| == 0 then coords
    else
      var e := located[|located| - 1];
      Moved(coords, located[..|located| - 1])[e.0 := Position(e.1)]
  }

  /** No later entry moves the same rectangle as entry `i`. */
  ghost predicate LastFor(located: seq<(nat, Entry)>, i: int)
    requires 0 <= i < |located|
  {
    forall k | i < k < |located| :: located[k].0 != located[i].0
  }

  /** The rectangle of an entry no later entry moves ends where that entry
      puts it. */
  lemma {:induction false} MovedLast(coords: map<nat, Point>, located: seq<(nat, Entry)>, i: int)
    requires 0 <= i < |located| && LastFor(located, i)
    ensures located[i].0 in Moved(coords, located)
    ensures Moved(coords, located)[located[i].0] == Position(located[i].1)
  {
    if i < |located| - 1 {
      var init := located[..|located| - 1];
      assert init[i] == located[i];
      MovedLast(coords, init, i);
    }
  }

  /** A rectangle no entry names stays where it was. */
  lemma {:induction false} MovedElsewhere(coords: map<nat, Point>, located: seq<(nat, Entry)>, h: nat)
    requires h in coords && forall i | 0 <= i < |located| :: located[i].0 != h
    ensures h in Moved(coords, located) && Moved(coords, located)[h] == coords[h]
  {
    if |located| > 0 {
      var init := located[..|located| - 1];
      assert forall i | 0 <= i < |init| :: init[i] == located[i];
      MovedElsewhere(coords, init, h);
    }
  }

  /** `organize`'s lookups fail exactly when no task is parentless and no
      handler's task has the sentinel's id: the layout is then the lone
      sentinel entry; otherwise every entry names a shown task. */
  lemma OrganizeLookups(g: map<int, Task>, rank: map<int, nat>, handlers: seq<int>)
    requires Ranked(g, rank)
    requires forall id | id in rank :: id in handlers
    requires AllRanked(rank, RootIds(g, handlers))
    ensures Locate(handlers, Layout(g, rank, NoStart, 0.0, 0, Some(RootIds(g, handlers)))).None?
        <==> |RootIds(g, handlers)| == 0 && NoStart !in handlers
  {
    var roots := RootIds(g, handlers);
    if |roots| > 0 {
      RootsHandled(g, rank, handlers, roots);
    } else {
      RootsOnTop(g, rank, roots);
    }
  }

  /** With roots, every entry of the layout names a task with a handler. */
  lemma RootsHandled(g: map<int, Task>, rank: map<int, nat>, handlers: seq<int>, roots: seq<int>)
    requires Ranked(g, rank) && (forall id | id in rank :: id in handlers)
    requires AllRanked(rank, roots) && |roots| > 0
    ensures Locate(handlers, Layout(g, rank, NoStart, 0.0, 0, Some(roots))).Some?
  {
    RootsLayoutRanked(g, rank, roots);
    var tree := Layout(g, rank, NoStart, 0.0, 0, Some(roots));
    forall k | 0 <= k < |tree| ensures tree[k].node in handlers {
      var id := tree[k].node;
      assert id in rank;
    }
  }

  /** Two tasks that list each other as children, as a link of a task under
      its own child leaves them, admit no ranking: `make_tree` never reaches
      them from a parentless task. */
  lemma CycleUnranked(g: map<int, Task>, rank: map<int, nat>, a: int, b: int)
    requires a in g && b in g && b in g[a].children && a in g[b].children
    requires a in rank
    ensures !Ranked(g, rank)
  {
    var i :| 0 <= i < |g[a].children| && g[a].children[i] == b;
    var j :| 0 <= j < |g[b].children| && g[b].children[j] == a;
    if b in rank {
      assert !(rank[b] < rank[a] && rank[a] < rank[b]);
    }
  }

  /** `organize` leaves the rectangle of a handler whose task is not ranked,
      such as one on a cycle, where it was. */
  lemma OrganizeSkipsUnranked(g: map<int, Task>, rank: map<int, nat>, handlers: seq<int>,
                              coords: map<nat, Point>, h: nat)
    requires Ranked(g, rank) && (forall id | id in rank :: id in handlers)
    requires AllRanked(rank, RootIds(g, handlers)) && |RootIds(g, handlers)| > 0
    requires h < |handlers| && handlers[h] !in rank && h in coords
    ensures Locate(handlers, Layout(g, rank, NoStart, 0.0, 0, Some(RootIds(g, handlers)))).Some?
    ensures
      var located := Locate(handlers, Layout(g, rank, NoStart, 0.0, 0, Some(RootIds(g, handlers)))).value;
      h in Moved(coords, located) && Moved(coords, located)[h] == coords[h]
  {
    var roots := RootIds(g, handlers);
    var tree := Layout(g, rank, NoStart, 0.0, 0, Some(roots));
    RootsHandled(g, rank, handlers, roots);
    RootsLayoutRanked(g, rank, roots);
    LocatedAway(handlers, tree, rank, h);
    MovedElsewhere(coords, Locate(handlers, tree).value, h);
  }

  /** No entry of a layout of ranked tasks moves the rectangle of a handler
      whose task is unranked. */
  lemma LocatedAway(handlers: seq<int>, tree: seq<Entry>, rank: map<int, nat>, h: nat)
    requires forall k | 0 <= k < |tree| :: tree[k].node in rank
    requires h < |handlers| && handlers[h] !in rank
    requires Locate(handlers, tree).Some?
    ensures forall i | 0 <= i < |Locate(handlers, tree).value| :: Locate(handlers, tree).value[i].0 != h
  {
    var located := Locate(handlers, tree).value;
    forall i | 0 <= i < |located| ensures located[i].0 != h {
      var id := tree[i].node;
      assert id in rank;
      assert IdToGraphicalHandler(handlers, id) == Some(located[i].0);
    }
  }

  datatype CanvasError = StopIteration | InvalidLink

  /** `WBSCanvas`: the handlers it shows, each by its task's technical id,
      and where each handler's rectangle sits. */
  class WbsCanvas {
    const store: TaskStore
    var handlers: seq<int>
    var coords: map<nat, Point>

    constructor (store: TaskStore)
      ensures this.store == store && handlers == [] && coords == map[]
    {
      this.store := store;
      handlers := [];
      coords := map[];
    }

    /** `organize`: lay out the parentless tasks' trees and move every
        rectangle to its entry, one row up. The lookups all happen before
        any rectangle moves, so a failing one moves nothing. */
    method Organize(ghost rank: map<int, nat>) returns (r: Outcome<CanvasError>)
      requires Ranked(store.resources, rank)
      requires forall id | id in rank :: id in handlers
      requires AllRanked(rank, RootIds(store.resources, handlers))
      modifies this`coords
      ensures r.Fail? <==> |RootIds(store.resources, handlers)| == 0 && NoStart !in handlers
      ensures r.Fail? ==> r.error == StopIteration && coords == old(coords)
      ensures r.Pass? ==>
        var tree := Layout(store.resources, rank, NoStart, 0.0, 0, Some(RootIds(store.resources, handlers)));
        Locate(handlers, tree).Some? && coords == Moved(old(coords), Locate(handlers, tree).value)
    {
      var g := store.resources;
      OrganizeLookups(g, rank, handlers);
      var roots := RootIds(g, handlers);
      var tree := MakeTree(g, handlers, rank, NoStart, 0.0, 0, Some(roots));
      var located := Locate(handlers, tree);
      if located.None? {
        return Fail(StopIteration);
      }
      MoveAll(located.value);
      r := Pass;
    }

    /** `organize`'s loop: each located entry's rectangle moved in turn. */
    method MoveAll(located: seq<(nat, Entry)>)
      modifies this`coords
      ensures coords == Moved(old(coords), located)
    {
      for i := 0 to |located|
        invariant coords == Moved(old(coords), located[..i])
      {
        assert located[..i + 1][..i] == located[..i];
        coords := coords[located[i].0 := Position(located[i].1)];
      }
      assert located[..|located|] == located;
    }

    /** `WBSTaskGraphicalHandler.tree_link`: make the task of handler `a`
        the parent of that of handler `b`; either guard of the link becomes
        `InvalidLink`, with nothing changed. */
    method TreeLink(a: nat, b: nat) returns (r: Outcome<CanvasError>)
      requires a < |handlers| && b < |handlers|
      requires handlers[a] in store.resources && handlers[b] in store.resources
      modifies store
      ensures Linked(old(store.resources), handlers[b], handlers[a]).Ok? ==>
        r == Pass && store.resources == Linked(old(store.resources), handlers[b], handlers[a]).value
      ensures Linked(old(store.resources), handlers[b], handlers[a]).Err? ==>
        r == Fail(InvalidLink) && store.resources == old(store.resources)
    {
      var linked := store.ParentOf(handlers[a], handlers[b]);
      if linked.Fail? {
        return Fail(InvalidLink);
      }
      r := Pass;
    }
  }
}
