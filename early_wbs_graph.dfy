/** The earlier work-breakdown-structure canvas: tree nodes linked by object
    references, a layout that puts each parent at the mean column of its
    whole subtree, the canvas's `organize` under a throw-away metatask, and
    the counter that names the graphical items. */
module EarlyWbsGraph {
  import opened Base
  import opened Grid

  /** The canvas's grid: `x * 70`, `y * 40`, rectangles 50 by 20. */
  const CellWidth: real := 70.0
  const CellHeight: int := 40
  const RectWidth: real := 50.0
  const RectHeight: int := 20

  datatype LinkError = InvalidLink

  /** `TreeStructureHandler`: a node with an optional parent and, in order,
      its children. */
  class TreeNode {
    var parent: TreeNode?
    var children: seq<TreeNode>

    constructor ()
      ensures parent == null && children == []
    {
      parent := null;
      children := [];
    }

    /** `tree_link`: make `other` a child of this node, refused when `other`
        already has a parent. Nothing stops a node from adopting itself. */
    method TreeLink(other: TreeNode) returns (r: Outcome<LinkError>)
      modifies this, other
      ensures old(other.parent) != null ==>
        r == Fail(InvalidLink) && parent == old(parent) && children == old(children)
        && other.parent == old(other.parent) && other.children == old(other.children)
      ensures old(other.parent) == null ==>
        r == Pass && other.parent == this && children == old(children) + [other]
      ensures old(other.parent) == null && other != this ==>
        parent == old(parent) && other.children == old(other.children)
    {
      if other.parent != null {
        return Fail(InvalidLink);
      }
      other.parent := this;
      children := children + [other];
      r := Pass;
    }

    /** `make_tree(x_offset, y)`; `t` is the tree below this node as the
        heap holds it. */
    method MakeTree(x: real, y: int, ghost rank: map<TreeNode, nat>, ghost t: NTree) returns (tree: seq<Entry>)
      requires RankedNodes(rank) && this in rank && t == TreeOf(this, rank)
      ensures tree == Place(t, x, y)
      decreases rank[this], 2
    {
      var kids := children;
      if |kids| == 0 {
        return [Placed(this, x, y)];
      }
      tree := MakeSubtrees(kids, x, y + 1, rank, rank[this], t.kids);
      PlaceWithKids(t, x, y);
      tree := tree + [Placed(this, Mean(Cols(tree)), y)];
    }
  }

  /** One entry of a layout: a node, its column and its row. */
  type Entry = Placed<TreeNode>

  // ---------------------------------------------------------------------
  // The tree `make_tree` walks

  /** Every listed node is ranked below `bound`. */
  ghost predicate RankedBelow(rank: map<TreeNode, nat>, kids: seq<TreeNode>, bound: nat)
  {
    forall i | 0 <= i < |kids| :: kids[i] in rank && rank[kids[i]] < bound
  }

  /** Following `children` from a ranked node strictly lowers the rank, so
      the nodes form no cycle. */
  ghost predicate RankedNodes(rank: map<TreeNode, nat>)
    reads rank.Keys
  {
    forall n | n in rank :: RankedBelow(rank, n.children, rank[n])
  }

  /** A node and, in order, its children's trees. */
  datatype NTree = NNode(node: TreeNode, kids: seq<NTree>)

  /** The tree below a ranked node, as the heap holds it. */
  ghost function TreeOf(n: TreeNode, rank: map<TreeNode, nat>): (t: NTree)
    reads rank.Keys
    requires RankedNodes(rank) && n in rank
    ensures t.node == n
    decreases rank[n], 1, 0
  {
    NNode(n, TreesOf(n.children, rank, rank[n]))
  }

  ghost function TreesOf(kids: seq<TreeNode>, rank: map<TreeNode, nat>, bound: nat): (ts: seq<NTree>)
    reads rank.Keys
    requires RankedNodes(rank) && RankedBelow(rank, kids, bound)
    ensures |ts| == |kids|
    decreases bound, 0, |kids|
  {
    if |kids| == 0 then []
    else TreesOf(kids[..|kids| - 1], rank, bound) + [TreeOf(kids[|kids| - 1], rank)]
  }

  // ---------------------------------------------------------------------
  // The layout

  /** What `make_tree` returns for a tree: every subtree laid out one row
      down, then the node itself at the mean column of all of them. */
  function Place(t: NTree, x: real, y: int): (p: seq<Entry>)
    ensures |p| > 0 && p[|p| - 1].node == t.node
    decreases t, 1
  {
    if |t.kids| == 0 then [Placed(t.node, x, y)]
    else
      var ss := PlaceForest(t.kids, x, y + 1);
      var below := Concat(ss);
      assert |below| > 0 by {
        assert below == Concat(ss[..|ss| - 1]) + ss[|ss| - 1];
      }
      below + [Placed(t.node, Mean(Cols(below)), y)]
  }

  /** The `child_tree` of each pass of `make_tree`'s loop. */
  function PlaceForest(ts: seq<NTree>, x: real, y: int): (ss: seq<seq<Entry>>)
    ensures |ss| == |ts|
    ensures |ss| > 0 ==> |ss[|ss| - 1]| > 0
    decreases ts, 0
  {
    if |ts| == 0 then []
    else
      var before := PlaceForest(ts[..|ts| - 1], x, y);
      before + [Place(ts[|ts| - 1], NextOffset(before, x), y)]
  }

  lemma PlaceWithKids(t: NTree, x: real, y: int)
    requires |t.kids| > 0
    ensures |Concat(PlaceForest(t.kids, x, y + 1))| > 0
    ensures Place(t, x, y)
         == Concat(PlaceForest(t.kids, x, y + 1))
          + [Placed(t.node, Mean(Cols(Concat(PlaceForest(t.kids, x, y + 1)))), y)]
  {
  }

  lemma PlaceForestSnoc(ts: seq<NTree>, t: NTree, x: real, y: int)
    ensures PlaceForest(ts + [t], x, y)
         == PlaceForest(ts, x, y) + [Place(t, NextOffset(PlaceForest(ts, x, y), x), y)]
  {
    assert (ts + [t])[..|ts|] == ts;
  }

  lemma TreesOfAt(kids: seq<TreeNode>, rank: map<TreeNode, nat>, bound: nat, i: nat)
    requires RankedNodes(rank) && RankedBelow(rank, kids, bound) && i < |kids|
    ensures kids[i] in rank && TreesOf(kids, rank, bound)[i] == TreeOf(kids[i], rank)
    decreases |kids|
  {
    if i < |kids| - 1 {
      assert RankedBelow(rank, kids[..|kids| - 1], bound);
      TreesOfAt(kids[..|kids| - 1], rank, bound, i);
    }
  }

  /** One pass of `make_tree`'s loop, given the subtree it lays out. */
  lemma LoopStep(ts: seq<NTree>, i: nat, x: real, y: int, done: seq<seq<Entry>>, child: seq<Entry>)
    requires i < |ts|
    requires done == PlaceForest(ts[..i], x, y)
    requires child == Place(ts[i], NextOffset(done, x), y)
    ensures |child| > 0
    ensures done + [child] == PlaceForest(ts[..i + 1], x, y)
    ensures NextOffset(done + [child], x) == MaxOf(Cols(child)) + 1.0
    ensures Concat(done + [child]) == Concat(done) + child
  {
    assert ts[..i + 1] == ts[..i] + [ts[i]];
    PlaceForestSnoc(ts[..i], ts[i], x, y);
    ConcatSnoc(done, child);
  }

  /** The loop of `make_tree`: each child's subtree in turn, the offset
      moved past the largest column of the last one, all `extend`ed into
      one list. */
  method MakeSubtrees(kids: seq<TreeNode>, x: real, y: int, ghost rank: map<TreeNode, nat>, ghost bound: nat,
                      ghost ts: seq<NTree>)
    returns (tree: seq<Entry>)
    requires RankedNodes(rank) && RankedBelow(rank, kids, bound) && ts == TreesOf(kids, rank, bound)
    ensures tree == Concat(PlaceForest(ts, x, y))
    decreases bound, 1
  {
    ghost var done: seq<seq<Entry>> := [];
    var offset := x;
    tree := [];
    for i := 0 to |kids|
      invariant done == PlaceForest(ts[..i], x, y)
      invariant offset == NextOffset(done, x)
      invariant tree == Concat(done)
    {
      var childTree := MakeChild(kids, i, offset, x, y, rank, bound, ts, done);
      offset := MaxOf(Cols(childTree)) + 1.0;
      done := done + [childTree];
      tree := tree + childTree;
    }
    assert ts[..|kids|] == ts;
  }

  /** One turn of that loop: the subtree of child `i`, placed at the
      offset the subtrees before it leave. */
  method MakeChild(kids: seq<TreeNode>, i: nat, offset: real, x: real, y: int,
                   ghost rank: map<TreeNode, nat>, ghost bound: nat, ghost ts: seq<NTree>,
                   ghost done: seq<seq<Entry>>)
    returns (childTree: seq<Entry>)
    requires RankedNodes(rank) && RankedBelow(rank, kids, bound) && ts == TreesOf(kids, rank, bound)
    requires i < |kids| && done == PlaceForest(ts[..i], x, y) && offset == NextOffset(done, x)
    ensures |childTree| > 0
    ensures done + [childTree] == PlaceForest(ts[..i + 1], x, y)
    ensures NextOffset(done + [childTree], x) == MaxOf(Cols(childTree)) + 1.0
    ensures Concat(done + [childTree]) == Concat(done) + childTree
    decreases bound, 0
  {
    TreesOfAt(kids, rank, bound, i);
    childTree := kids[i].MakeTree(offset, y, rank, ts[i]);
    LoopStep(ts, i, x, y, done, childTree);
  }

  // ---------------------------------------------------------------------
  // Which node each entry names

  /** The nodes of `t` in post-order: each subtree in turn, then the root. */
  function PostOrder(t: NTree): seq<TreeNode>
    decreases t, 1
  {
    PostOrderForest(t.kids) + [t.node]
  }

  function PostOrderForest(ts: seq<NTree>): seq<TreeNode>
    decreases ts, 0
  {
    if |ts| == 0 then [] else PostOrderForest(ts[..|ts| - 1]) + PostOrder(ts[|ts| - 1])
  }

  /** `make_tree` lists every node of the tree exactly once per occurrence,
      children before their parent, siblings left to right. */
  lemma {:induction false} PlaceNodes(t: NTree, x: real, y: int)
    ensures Nodes(Place(t, x, y)) == PostOrder(t)
    decreases t, 1
  {
    if |t.kids| == 0 {
      assert PostOrderForest(t.kids) == [];
    } else {
      PlaceForestNodes(t.kids, x, y + 1);
      PlaceWithKids(t, x, y);
      var below := Concat(PlaceForest(t.kids, x, y + 1));
      NodesAppend(below, [Placed(t.node, Mean(Cols(below)), y)]);
    }
  }

  lemma {:induction false} PlaceForestNodes(ts: seq<NTree>, x: real, y: int)
    ensures Nodes(Concat(PlaceForest(ts, x, y))) == PostOrderForest(ts)
    decreases ts, 0
  {
    if |ts| > 0 {
      var init := ts[..|ts| - 1];
      var before := PlaceForest(init, x, y);
      PlaceForestNodes(init, x, y);
      var s := Place(ts[|ts| - 1], NextOffset(before, x), y);
      PlaceNodes(ts[|ts| - 1], NextOffset(before, x), y);
      assert PlaceForest(ts, x, y) == before + [s];
      ConcatSnoc(before, s);
      NodesAppend(Concat(before), s);
    }
  }

  // ---------------------------------------------------------------------
  // Where the entries land

  /** The mean of the columns of entries right of `x` is right of `x` too,
      and no further right than the rightmost of them. */
  lemma MeanWithin(p: seq<Entry>, x: real, y: int)
    requires |p| > 0 && Within(p, x, y)
    ensures x <= Mean(Cols(p)) <= MaxCol(p)
    ensures MinOf(Cols(p)) <= Mean(Cols(p))
  {
    var xs := Cols(p);
    MaxColAtLeast(p, x, y);
    MeanBetween(xs, MinOf(xs), MaxOf(xs));
    assert MinOf(xs) in xs;
  }

  /** `make_tree` keeps to the region right of its offset and below its row. */
  lemma {:induction false} PlaceWithin(t: NTree, x: real, y: int)
    ensures Within(Place(t, x, y), x, y)
    decreases t, 1
  {
    if |t.kids| > 0 {
      var ss := PlaceForest(t.kids, x, y + 1);
      PlaceForestWithin(t.kids, x, y + 1);
      ConcatWithin(ss, x, y + 1);
      PlaceWithKids(t, x, y);
      var below := Concat(ss);
      WithinRaise(below, x, y);
      MeanWithin(below, x, y);
      WithinSnoc(below, Placed(t.node, Mean(Cols(below)), y), x, y);
    }
  }

  lemma {:induction false} PlaceForestWithin(ts: seq<NTree>, x: real, y: int)
    ensures ForestWithin(PlaceForest(ts, x, y), x, y)
    decreases ts, 0
  {
    if |ts| > 0 {
      var before := PlaceForest(ts[..|ts| - 1], x, y);
      PlaceForestWithin(ts[..|ts| - 1], x, y);
      var off := NextOffset(before, x);
      PlaceWithin(ts[|ts| - 1], off, y);
      if |before| > 0 {
        MaxColAtLeast(before[|before| - 1], x, y);
      }
    }
  }

  /** The subtrees of `make_tree`'s loop: each lies strictly right of the
      ones before it, and the next offset lies right of all of them. */
  lemma {:induction false} PlaceForestSeparated(ts: seq<NTree>, x: real, y: int)
    ensures Separated(PlaceForest(ts, x, y))
    ensures LeftOf(PlaceForest(ts, x, y), NextOffset(PlaceForest(ts, x, y), x))
  {
    if |ts| > 0 {
      var init := ts[..|ts| - 1];
      var before := PlaceForest(init, x, y);
      PlaceForestSeparated(init, x, y);
      var off := NextOffset(before, x);
      var s := Place(ts[|ts| - 1], off, y);
      PlaceWithin(ts[|ts| - 1], off, y);
      MaxColAtLeast(s, off, y);
      assert PlaceForest(ts, x, y) == before + [s];
      SeparatedSnoc(before, s, off, y);
      LeftOfSnoc(before, s, off, MaxCol(s) + 1.0);
    }
  }

  /** The node's own entry closes its list, at row `y`: a leaf at the
      offset, a parent at the mean column of every entry before it, hence
      between the leftmost and the rightmost of its descendants. */
  lemma ParentAtMean(t: NTree, x: real, y: int)
    ensures Place(t, x, y)[|Place(t, x, y)| - 1].row == y
    ensures |t.kids| == 0 <==> |Place(t, x, y)| == 1
    ensures |t.kids| == 0 ==> Place(t, x, y)[0].col == x
    ensures |t.kids| > 0 ==>
      var p := Place(t, x, y);
      var below := p[..|p| - 1];
      |below| > 0 && p[|p| - 1].col == Mean(Cols(below))
      && MinOf(Cols(below)) <= p[|p| - 1].col <= MaxOf(Cols(below))
      && Within(below, x, y + 1)
  {
    if |t.kids| > 0 {
      var ss := PlaceForest(t.kids, x, y + 1);
      var below := Concat(ss);
      PlaceWithKids(t, x, y);
      PlaceForestWithin(t.kids, x, y + 1);
      ConcatWithin(ss, x, y + 1);
      MeanWithin(below, x, y + 1);
      var p := Place(t, x, y);
      assert p[..|p| - 1] == below;
    }
  }

  // ---------------------------------------------------------------------
  // The canvas

  /** The parentless tasks, in list order: the metatask's children. */
  function Roots(tasks: seq<TreeNode>): (roots: seq<TreeNode>)
    reads tasks
    ensures |roots| <= |tasks|
    ensures forall n | n in roots :: n in tasks && n.parent == null
    ensures forall n | n in tasks && n.parent == null :: n in roots
  {
    if |tasks| == 0 then []
    else
      var init := tasks[..|tasks| - 1];
      var last := tasks[|tasks| - 1];
      assert tasks == init + [last];
      Roots(init) + (if last.parent == null then [last] else [])
  }

  /** A rank above every listed node's. */
  ghost function RankBound(rank: map<TreeNode, nat>, kids: seq<TreeNode>): (b: nat)
    requires forall n | n in kids :: n in rank
    ensures RankedBelow(rank, kids, b)
  {
    if |kids| == 0 then 0
    else
      var rest := RankBound(rank, kids[1..]);
      assert forall i | 1 <= i < |kids| :: kids[i] == kids[1..][i - 1];
      if rank[kids[0]] < rest then rest else rank[kids[0]] + 1
  }

  /** The metatask's list without its own entries: `task != metatask`. */
  function Without(p: seq<Entry>, n: TreeNode): (q: seq<Entry>)
    ensures forall e | e in q :: e in p && e.node != n
    ensures forall e | e in p && e.node != n :: e in q
  {
    if |p| == 0 then []
    else
      var init := p[..|p| - 1];
      assert p == init + [p[|p| - 1]];
      Without(init, n) + (if p[|p| - 1].node == n then [] else [p[|p| - 1]])
  }

  /** Filtering out a node no entry names leaves the list as it is. */
  lemma {:induction false} WithoutAbsent(p: seq<Entry>, n: TreeNode)
    requires n !in Nodes(p)
    ensures Without(p, n) == p
  {
    if |p| > 0 {
      var init := p[..|p| - 1];
      assert Nodes(init) == Nodes(p)[..|p| - 1];
      WithoutAbsent(init, n);
      assert p == init + [p[|p| - 1]];
    }
  }

  /** Every node of a ranked node's tree is ranked. */
  lemma {:induction false} TreeOfRanked(n: TreeNode, rank: map<TreeNode, nat>)
    requires RankedNodes(rank) && n in rank
    ensures forall m | m in PostOrder(TreeOf(n, rank)) :: m in rank
    decreases rank[n], 1
  {
    TreesOfRanked(n.children, rank, rank[n]);
  }

  lemma {:induction false} TreesOfRanked(kids: seq<TreeNode>, rank: map<TreeNode, nat>, bound: nat)
    requires RankedNodes(rank) && RankedBelow(rank, kids, bound)
    ensures forall m | m in PostOrderForest(TreesOf(kids, rank, bound)) :: m in rank
    decreases bound, 0, |kids|
  {
    if |kids| > 0 {
      var init := kids[..|kids| - 1];
      assert RankedBelow(rank, init, bound);
      TreesOfRanked(init, rank, bound);
      TreeOfRanked(kids[|kids| - 1], rank);
      var ts := TreesOf(kids, rank, bound);
      assert ts[..|ts| - 1] == TreesOf(init, rank, bound);
    }
  }

  /** Ranking one more node, with no children among the ranked ones
      changed, leaves every ranked node's tree as it was. */
  lemma {:induction false} TreeOfExtend(n: TreeNode, rank: map<TreeNode, nat>, extra: TreeNode, r: nat)
    requires RankedNodes(rank) && n in rank && extra !in rank
    requires RankedNodes(rank[extra := r])
    ensures TreeOf(n, rank[extra := r]) == TreeOf(n, rank)
    decreases rank[n], 1
  {
    TreesOfExtend(n.children, rank, rank[n], extra, r);
  }

  lemma {:induction false} TreesOfExtend(kids: seq<TreeNode>, rank: map<TreeNode, nat>, bound: nat, extra: TreeNode, r: nat)
    requires RankedNodes(rank) && RankedBelow(rank, kids, bound) && extra !in rank
    requires RankedNodes(rank[extra := r])
    ensures RankedBelow(rank[extra := r], kids, bound)
    ensures TreesOf(kids, rank[extra := r], bound) == TreesOf(kids, rank, bound)
    decreases bound, 0, |kids|
  {
    if |kids| > 0 {
      var init := kids[..|kids| - 1];
      assert RankedBelow(rank, init, bound);
      TreesOfExtend(init, rank, bound, extra, r);
      TreeOfExtend(kids[|kids| - 1], rank, extra, r);
    }
  }

  /** `organize`'s layout: the parentless tasks laid out in list order from
      column 0, each at row 1 with its descendants below. */
  ghost function RootsLayout(tasks: seq<TreeNode>, rank: map<TreeNode, nat>): (ss: seq<seq<Entry>>)
    reads tasks, rank.Keys
    requires RankedNodes(rank) && forall n | n in Roots(tasks) :: n in rank
    ensures |ss| == |Roots(tasks)|
  {
    var roots := Roots(tasks);
    PlaceForest(TreesOf(roots, rank, RankBound(rank, roots)), 0.0, 1)
  }

  /** A rectangle's corners on the canvas. */
  datatype Rect = Rect(left: real, top: int, right: real, bottom: int)

  /** A title's anchor on the canvas. */
  datatype Point = Point(x: real, y: int)

  /** Where `organize` moves a task's rectangle and title. */
  datatype Placement = Placement(rect: Rect, title: Point)

  /** The cell of an entry: 70 wide and 40 high; the rectangle is 50 by 20
      from the cell's corner, the title anchored at that corner. */
  function PlacementOf(e: Entry): (pl: Placement)
    ensures pl.rect.right - pl.rect.left == RectWidth && pl.rect.bottom - pl.rect.top == RectHeight
    ensures pl.title == Point(pl.rect.left, pl.rect.top)
    ensures pl.rect.left == e.col * CellWidth && pl.rect.top == e.row * CellHeight
  {
    var left := e.col * CellWidth;
    var top := e.row * CellHeight;
    Placement(Rect(left, top, left + RectWidth, top + RectHeight), Point(left, top))
  }

  /** The canvas after moving the items of each entry in turn. */
  function Drawn(coords: map<TreeNode, Placement>, p: seq<Entry>): (drawn: map<TreeNode, Placement>)
    ensures forall n | n in drawn :: n in coords || n in Nodes(p)
    ensures forall n | n in coords :: n in drawn
    ensures forall k | 0 <= k < |p| :: p[k].node in drawn
  {
    if |p| == 0 then coords
    else Drawn(coords, p[..|p| - 1])[p[|p| - 1].node := PlacementOf(p[|p| - 1])]
  }

  /** The items of a node listed once are where its entry puts them; the
      items of a node not listed are untouched. */
  lemma {:induction false} DrawnAt(coords: map<TreeNode, Placement>, p: seq<Entry>, i: int)
    requires 0 <= i < |p| && forall k | i < k < |p| :: p[k].node != p[i].node
    ensures p[i].node in Drawn(coords, p) && Drawn(coords, p)[p[i].node] == PlacementOf(p[i])
  {
    if i < |p| - 1 {
      DrawnAt(coords, p[..|p| - 1], i);
    }
  }

  lemma {:induction false} DrawnElsewhere(coords: map<TreeNode, Placement>, p: seq<Entry>, n: TreeNode)
    requires n !in Nodes(p)
    ensures n in Drawn(coords, p) <==> n in coords
    ensures n in coords ==> Drawn(coords, p)[n] == coords[n]
  {
    if |p| > 0 {
      assert Nodes(p[..|p| - 1]) == Nodes(p)[..|p| - 1];
      DrawnElsewhere(coords, p[..|p| - 1], n);
    }
  }

  /** `WBSCanvas`: its task handlers, and where their rectangles and titles
      are on the canvas. */
  class WbsCanvas {
    var tasks: seq<TreeNode>
    var coords: map<TreeNode, Placement>

    constructor ()
      ensures tasks == [] && coords == map[]
    {
      tasks := [];
      coords := map[];
    }

    /** `organize`: a fresh metatask adopts the parentless tasks, lays out
        its tree from `(0, 0)`, and every entry but its own moves its task's
        items. */
    method Organize(ghost rank: map<TreeNode, nat>)
      requires RankedNodes(rank) && forall n | n in Roots(tasks) :: n in rank
      modifies this`coords
      ensures coords == Drawn(old(coords), old(Concat(RootsLayout(tasks, rank))))
    {
      var roots := Roots(tasks);
      var tree := LayOutUnderMetatask(roots, rank, RankBound(rank, roots));
      DrawAll(tree);
    }

    /** The loop of `organize` that moves each entry's items. */
    method DrawAll(tree: seq<Entry>)
      modifies this`coords
      ensures coords == Drawn(old(coords), tree)
    {
      for i := 0 to |tree|
        invariant coords == Drawn(old(coords), tree[..i])
      {
        assert tree[..i + 1][..i] == tree[..i];
        coords := coords[tree[i].node := PlacementOf(tree[i])];
      }
      assert tree[..|tree|] == tree;
    }
  }

  /** A node nobody ranks yet, ranked above its children, keeps every
      node's children ranked below it. */
  lemma RankNewNode(rank: map<TreeNode, nat>, m: TreeNode, bound: nat)
    requires RankedNodes(rank) && m !in rank && RankedBelow(rank, m.children, bound)
    ensures RankedNodes(rank[m := bound])
  {
    var ranked := rank[m := bound];
    forall n | n in ranked ensures RankedBelow(ranked, n.children, ranked[n]) {
      if n != m {
        assert RankedBelow(rank, n.children, rank[n]);
      }
    }
  }

  /** The tree-building half of `organize`: a fresh metatask adopts
      `roots`, lays out its tree from `(0, 0)`, and its own entries are
      filtered out; what is left is the roots' layout from row 1. */
  method LayOutUnderMetatask(roots: seq<TreeNode>, ghost rank: map<TreeNode, nat>, ghost bound: nat)
    returns (tree: seq<Entry>)
    requires RankedNodes(rank) && RankedBelow(rank, roots, bound)
    ensures tree == old(Concat(PlaceForest(TreesOf(roots, rank, bound), 0.0, 1)))
  {
    ghost var ts := TreesOf(roots, rank, bound);
    var metatask := new TreeNode();
    metatask.children := roots;
    assert TreesOf(roots, rank, bound) == ts;
    ghost var ranked := rank[metatask := bound];
    RankNewNode(rank, metatask, bound);
    TreesOfExtend(roots, rank, bound, metatask, bound);
    ghost var t := TreeOf(metatask, ranked);
    MetataskDropped(metatask, roots, rank, bound, ranked);
    tree := metatask.MakeTree(0.0, 0, ranked, t);
    tree := Without(tree, metatask);
  }

  /** Dropping the metatask's entries from its layout leaves exactly the
      layout of its children, from column 0 at row 1. */
  lemma MetataskDropped(metatask: TreeNode, roots: seq<TreeNode>, rank: map<TreeNode, nat>, bound: nat,
                        ranked: map<TreeNode, nat>)
    requires RankedNodes(rank) && RankedBelow(rank, roots, bound) && metatask !in rank
    requires ranked == rank[metatask := bound] && RankedNodes(ranked) && metatask.children == roots
    requires TreesOf(roots, ranked, bound) == TreesOf(roots, rank, bound)
    ensures Without(Place(TreeOf(metatask, ranked), 0.0, 0), metatask)
         == Concat(PlaceForest(TreesOf(roots, rank, bound), 0.0, 1))
  {
    var ts := TreesOf(roots, rank, bound);
    var t := TreeOf(metatask, ranked);
    assert t.kids == ts;
    var below := Concat(PlaceForest(ts, 0.0, 1));
    TreesOfRanked(roots, rank, bound);
    PlaceForestNodes(ts, 0.0, 1);
    WithoutAbsent(below, metatask);
    if |ts| == 0 {
      assert Place(t, 0.0, 0) == [Placed(metatask, 0.0, 0)];
    } else {
      PlaceWithKids(t, 0.0, 0);
      var me := Placed(metatask, Mean(Cols(below)), 0);
      assert Place(t, 0.0, 0) == below + [me];
      assert (below + [me])[..|below|] == below;
    }
  }

  /** The subtree of each tree of the loop ends with that tree's own
      entry, at the loop's row. */
  lemma {:induction false} ForestRoots(ts: seq<NTree>, x: real, y: int)
    ensures forall j | 0 <= j < |ts| ::
      var s := PlaceForest(ts, x, y)[j];
      |s| > 0 && s[|s| - 1].node == ts[j].node && s[|s| - 1].row == y
  {
    if |ts| > 0 {
      var init := ts[..|ts| - 1];
      var before := PlaceForest(init, x, y);
      ForestRoots(init, x, y);
      ParentAtMean(ts[|ts| - 1], NextOffset(before, x), y);
      var ss := PlaceForest(ts, x, y);
      assert ss == before + [Place(ts[|ts| - 1], NextOffset(before, x), y)];
      forall j | 0 <= j < |ts| - 1 ensures ss[j] == before[j] && ts[j] == init[j] {
      }
    }
  }

  /** What `organize` lays out: the parentless tasks in list order, each
      ending its own subtree at row 1 (the metatask's children, and no row
      shift). */
  lemma OrganizeRoots(tasks: seq<TreeNode>, rank: map<TreeNode, nat>)
    requires RankedNodes(rank) && forall n | n in Roots(tasks) :: n in rank
    ensures |RootsLayout(tasks, rank)| == |Roots(tasks)|
    ensures forall j | 0 <= j < |Roots(tasks)| ::
      var s := RootsLayout(tasks, rank)[j];
      |s| > 0 && s[|s| - 1].node == Roots(tasks)[j] && s[|s| - 1].row == 1
  {
    var roots := Roots(tasks);
    var bound := RankBound(rank, roots);
    var ts := TreesOf(roots, rank, bound);
    ForestRoots(ts, 0.0, 1);
    forall j | 0 <= j < |roots| ensures ts[j].node == roots[j] {
      TreesOfAt(roots, rank, bound, j);
    }
  }

  /** Every entry `organize` lays out is at column 0 or right and at row 1
      or below, and the roots' subtrees sit side by side without
      overlapping columns. */
  lemma OrganizeBounds(tasks: seq<TreeNode>, rank: map<TreeNode, nat>)
    requires RankedNodes(rank) && forall n | n in Roots(tasks) :: n in rank
    ensures Separated(RootsLayout(tasks, rank))
    ensures Within(Concat(RootsLayout(tasks, rank)), 0.0, 1)
  {
    var roots := Roots(tasks);
    var ts := TreesOf(roots, rank, RankBound(rank, roots));
    PlaceForestWithin(ts, 0.0, 1);
    PlaceForestSeparated(ts, 0.0, 1);
    ConcatWithin(PlaceForest(ts, 0.0, 1), 0.0, 1);
  }

  /** `organize` leaves the items of a node nobody ranks, such as one that
      adopted itself, where they were: no parentless task's tree reaches it. */
  lemma OrganizeSkipsUnranked(tasks: seq<TreeNode>, rank: map<TreeNode, nat>, coords: map<TreeNode, Placement>,
                              n: TreeNode)
    requires RankedNodes(rank) && forall m | m in Roots(tasks) :: m in rank
    requires n !in rank
    ensures n in Drawn(coords, Concat(RootsLayout(tasks, rank))) <==> n in coords
    ensures n in coords ==> Drawn(coords, Concat(RootsLayout(tasks, rank)))[n] == coords[n]
  {
    var roots := Roots(tasks);
    var bound := RankBound(rank, roots);
    var ts := TreesOf(roots, rank, bound);
    PlaceForestNodes(ts, 0.0, 1);
    TreesOfRanked(roots, rank, bound);
    DrawnElsewhere(coords, Concat(RootsLayout(tasks, rank)), n);
  }

  /** A node among its own children, which `tree_link` produces when a
      parentless node adopts itself, admits no ranking: `make_tree`
      started from it does not terminate. */
  lemma OwnChildUnranked(n: TreeNode, i: nat, rank: map<TreeNode, nat>)
    requires i < |n.children| && n.children[i] == n && n in rank
    ensures !RankedNodes(rank)
  {
    assert !RankedBelow(rank, n.children, rank[n]);
  }

  // ---------------------------------------------------------------------
  // Graphical ids

  /** The decimal digit of a value below 10. */
  function Digit(d: nat): char
    requires d < 10
  {
    ('0' as int + d) as char
  }

  /** `str(n)`: `n` in decimal, without leading zeros. */
  function NatToString(n: nat): (s: seq<char>)
    ensures |s| > 0 && IsDigits(s)
  {
    if n < 10 then [Digit(n)] else NatToString(n / 10) + [Digit(n % 10)]
  }

  /** Every character is a decimal digit. */
  predicate IsDigits(s: seq<char>)
  {
    forall k | 0 <= k < |s| :: '0' <= s[k] <= '9'
  }

  /** The value of a string of decimal digits. */
  function ParseNat(s: seq<char>): nat
    requires IsDigits(s)
  {
    if |s| == 0 then 0
    else ParseNat(s[..|s| - 1]) * 10 + (s[|s| - 1] as int - '0' as int)
  }

  /** Reading the decimal form of `n` gives back `n`. */
  lemma {:induction false} ParseNatToString(n: nat)
    ensures ParseNat(NatToString(n)) == n
  {
    if n >= 10 {
      ParseNatToString(n / 10);
      var s := NatToString(n);
      assert s[..|s| - 1] == NatToString(n / 10);
    } else {
      assert NatToString(n)[..0] == [];
    }
  }

  /** The id of the `n`th graphical item: `f"graph_{n}"`. */
  function GraphId(n: nat): (id: string)
    ensures |id| > 6 && id[..6] == "graph_"
    ensures IsDigits(id[6..]) && ParseNat(id[6..]) == n
  {
    var id := "graph_" + NatToString(n);
    assert id[6..] == NatToString(n);
    ParseNatToString(n);
    id
  }

  /** Different counter values give different ids. */
  lemma GraphIdInjective(a: nat, b: nat)
    ensures GraphId(a) == GraphId(b) <==> a == b
  {
    if GraphId(a) == GraphId(b) {
      assert NatToString(a) == GraphId(a)[6..];
      assert NatToString(b) == GraphId(b)[6..];
      ParseNatToString(a);
      ParseNatToString(b);
    }
  }

  /** `GraphicalId`: the class-level counter every new graphical item
      draws its id from. */
  class GraphicalIdCounter {
    var next: nat

    constructor ()
      ensures next == 0
    {
      next := 0;
    }

    /** `GraphicalId.__init__`: the id for the current counter, which then
        moves on, so no later item gets the same id. */
    method NewId() returns (id: string)
      modifies this
      ensures id == GraphId(old(next)) && next == old(next) + 1
      ensures forall m: nat | m >= next :: GraphId(m) != id
    {
      id := GraphId(next);
      forall m: nat | m >= next + 1 ensures GraphId(m) != id {
        GraphIdInjective(m, next);
      }
      next := next + 1;
    }
  }
}
