/** The entries of a tree layout, shared by both canvases: a node with its
    column and row, the lists `make_tree` concatenates, where the next
    subtree starts, and the facts about their columns that both layouts
    rely on. */
module Grid {
  import opened Base

  /** One entry of a layout: a node, its column and its row. */
  datatype Placed<N> = Placed(node: N, col: real, row: int)

  /** The columns of a layout, in order. */
  function Cols<N>(t: seq<Placed<N>>): (xs: seq<real>)
    ensures |xs| == |t| && forall i | 0 <= i < |t| :: xs[i] == t[i].col
  {
    seq(|t|, i requires 0 <= i < |t| => t[i].col)
  }

  /** The node of each entry, in order. */
  function Nodes<N>(p: seq<Placed<N>>): (ns: seq<N>)
    ensures |ns| == |p| && forall k | 0 <= k < |p| :: ns[k] == p[k].node
  {
    seq(|p|, k requires 0 <= k < |p| => p[k].node)
  }

  lemma NodesAppend<N>(a: seq<Placed<N>>, b: seq<Placed<N>>)
    ensures Nodes(a + b) == Nodes(a) + Nodes(b)
  {
  }

  /** The largest column of a layout. */
  function MaxCol<N>(t: seq<Placed<N>>): real
    requires |t| > 0
  {
    MaxOf(Cols(t))
  }

  /** The lists `extend`ed one after the other. */
  function Concat<N>(ss: seq<seq<Placed<N>>>): seq<Placed<N>>
  {
    if |ss| == 0 then [] else Concat(ss[..|ss| - 1]) + ss[|ss| - 1]
  }

  lemma ConcatSnoc<N>(ss: seq<seq<Placed<N>>>, s: seq<Placed<N>>)
    ensures Concat(ss + [s]) == Concat(ss) + s
  {
    assert (ss + [s])[..|ss|] == ss;
  }

  /** Where the next subtree starts: at `x` for the first, otherwise one past
      the largest column of the subtree before it. */
  function NextOffset<N>(ss: seq<seq<Placed<N>>>, x: real): real
    requires |ss| > 0 ==> |ss[|ss| - 1]| > 0
  {
    if |ss| == 0 then x else MaxCol(ss[|ss| - 1]) + 1.0
  }

  /** The first subtree starts at `x`, each next one right of every column
      of the subtree before it. */
  lemma NextOffsetBeyond<N>(ss: seq<seq<Placed<N>>>, x: real)
    requires |ss| > 0 ==> |ss[|ss| - 1]| > 0
    ensures |ss| == 0 ==> NextOffset(ss, x) == x
    ensures |ss| > 0 ==> LeftOf([ss[|ss| - 1]], NextOffset(ss, x))
  {
    if |ss| > 0 {
      var last := ss[|ss| - 1];
      assert forall k | 0 <= k < |last| :: Cols(last)[k] <= MaxCol(last);
    }
  }

  /** No subtree is empty. */
  ghost predicate NonEmpty<N>(ss: seq<seq<Placed<N>>>)
  {
    forall j | 0 <= j < |ss| :: |ss[j]| > 0
  }

  /** Every entry at or right of column `x` and at or below row `y`. */
  ghost predicate Within<N>(p: seq<Placed<N>>, x: real, y: int)
  {
    forall k | 0 <= k < |p| :: x <= p[k].col && y <= p[k].row
  }

  /** Every entry of every subtree at or right of `x`, at or below `y`. */
  ghost predicate ForestWithin<N>(ss: seq<seq<Placed<N>>>, x: real, y: int)
  {
    forall j | 0 <= j < |ss| :: Within(ss[j], x, y)
  }

  /** Every subtree lies strictly right of every column of the ones before
      it: the column ranges are disjoint and increase left to right. */
  ghost predicate Separated<N>(ss: seq<seq<Placed<N>>>)
  {
    forall i, j, k, l | 0 <= i < j < |ss| && 0 <= k < |ss[i]| && 0 <= l < |ss[j]| :: ss[i][k].col < ss[j][l].col
  }

  /** Every column of every subtree is left of `c`. */
  ghost predicate LeftOf<N>(ss: seq<seq<Placed<N>>>, c: real)
  {
    forall i, k | 0 <= i < |ss| && 0 <= k < |ss[i]| :: ss[i][k].col < c
  }

  lemma MaxColAtLeast<N>(p: seq<Placed<N>>, x: real, y: int)
    requires |p| > 0 && Within(p, x, y)
    ensures x <= MaxCol(p)
    ensures forall k | 0 <= k < |p| :: p[k].col <= MaxCol(p)
  {
    var xs := Cols(p);
    assert xs[0] <= MaxOf(xs);
  }

  lemma {:induction false} ConcatWithin<N>(ss: seq<seq<Placed<N>>>, x: real, y: int)
    requires ForestWithin(ss, x, y)
    ensures Within(Concat(ss), x, y)
  {
    if |ss| > 0 {
      ConcatWithin(ss[..|ss| - 1], x, y);
    }
  }

  lemma WithinRaise<N>(p: seq<Placed<N>>, x: real, y: int)
    requires Within(p, x, y + 1)
    ensures Within(p, x, y)
  {
  }

  lemma WithinSnoc<N>(p: seq<Placed<N>>, e: Placed<N>, x: real, y: int)
    requires Within(p, x, y) && x <= e.col && y <= e.row
    ensures Within(p + [e], x, y)
  {
  }

  lemma SeparatedSnoc<N>(ss: seq<seq<Placed<N>>>, s: seq<Placed<N>>, off: real, y: int)
    requires Separated(ss) && LeftOf(ss, off) && Within(s, off, y)
    ensures Separated(ss + [s])
  {
    var grown: seq<seq<Placed<N>>> := ss + [s];
    forall i: int, j: int, k: int, l: int | 0 <= i < j < |grown| && 0 <= k < |grown[i]| && 0 <= l < |grown[j]|
      ensures grown[i][k].col < grown[j][l].col
    {
      if j == |ss| {
        assert grown[i][k].col == ss[i][k].col < off <= s[l].col;
      } else {
        assert grown[i] == ss[i] && grown[j] == ss[j];
      }
    }
  }

  lemma LeftOfSnoc<N>(ss: seq<seq<Placed<N>>>, s: seq<Placed<N>>, off: real, c: real)
    requires LeftOf(ss, off) && off <= c && forall k | 0 <= k < |s| :: s[k].col < c
    ensures LeftOf(ss + [s], c)
  {
    var grown: seq<seq<Placed<N>>> := ss + [s];
    forall i: int, k: int | 0 <= i < |grown| && 0 <= k < |grown[i]| ensures grown[i][k].col < c {
      if i < |ss| {
        assert grown[i] == ss[i];
      }
    }
  }
}
