/**
 * Black regions by two-pass labelling (src/detector/connected_components.rs).
 * The first pass gives each black cell the smallest label among its black
 * neighbours to the left, above, above left and above right, or a fresh
 * one, and unites the neighbours' labels; the second pass grows, per
 * union-find root, the bounding box of the cells carrying it.
 *
 * The labels, a flat `width * height` vector indexed `y * width + x` in the
 * source, are held here as rows, `labels[y][x]`.
 */
module ConnectedComponents {
  import opened Matrix

  /**
   * A forest over `0..|parent|`: `root` names each element's representative,
   * a root is its own parent and its own representative, a parent link keeps
   * the representative, and `dist` strictly decreases along parent links, so
   * following them always ends at the representative.
   */
  ghost predicate Forest(parent: seq<nat>, root: seq<nat>, dist: seq<nat>)
  {
    && |parent| == |root| == |dist|
    && (forall i :: 0 <= i < |parent| ==> parent[i] < |parent| && root[i] < |parent|)
    && (forall i :: 0 <= i < |parent| ==> (parent[i] == i <==> dist[i] == 0))
    && (forall i {:trigger dist[parent[i]]} :: 0 <= i < |parent| && parent[i] != i ==> dist[parent[i]] < dist[i])
    && (forall i {:trigger root[parent[i]]} :: 0 <= i < |parent| ==> root[parent[i]] == root[i])
    && (forall i {:trigger parent[root[i]]} :: 0 <= i < |parent| ==> parent[root[i]] == root[i])
    && (forall i :: 0 <= i < |parent| && parent[i] == i ==> root[i] == i)
  }

  /** Pointing a non-root straight at its representative keeps the forest. */
  lemma CompressKeepsForest(parent: seq<nat>, root: seq<nat>, dist: seq<nat>, x: nat)
    requires Forest(parent, root, dist) && x < |parent| && parent[x] != x
    ensures Forest(parent[x := root[x]], root, dist)
  {
    var p := parent[x := root[x]];
    forall i | 0 <= i < |p|
      ensures root[p[i]] == root[i] && p[root[i]] == root[i]
    {
      assert root[x] != x;
    }
  }

  /** The representatives after the class of `rx` joins the class of `ry`. */
  function Relinked(root: seq<nat>, rx: nat, ry: nat): (r: seq<nat>)
    ensures |r| == |root|
    ensures forall i :: 0 <= i < |root| ==> r[i] == if root[i] == rx then ry else root[i]
  {
    seq(|root|, i requires 0 <= i < |root| => if root[i] == rx then ry else root[i])
  }

  /** The distances after that join: one more for the class of `rx`. */
  function Deepened(root: seq<nat>, dist: seq<nat>, rx: nat): (r: seq<nat>)
    requires |root| == |dist|
    ensures |r| == |dist|
    ensures forall i :: 0 <= i < |dist| ==> r[i] == if root[i] == rx then dist[i] + 1 else dist[i]
  {
    seq(|dist|, i requires 0 <= i < |dist| => if root[i] == rx then dist[i] + 1 else dist[i])
  }

  /** Linking one root under another keeps the forest. */
  lemma LinkKeepsForest(parent: seq<nat>, root: seq<nat>, dist: seq<nat>, rx: nat, ry: nat)
    requires Forest(parent, root, dist) && rx < |parent| && ry < |parent| && rx != ry
    requires parent[rx] == rx && parent[ry] == ry
    ensures Forest(parent[rx := ry], Relinked(root, rx, ry), Deepened(root, dist, rx))
  {
    var p := parent[rx := ry];
    var r := Relinked(root, rx, ry);
    var d := Deepened(root, dist, rx);
    assert root[rx] == rx && root[ry] == ry;
    forall i | 0 <= i < |p|
      ensures (p[i] == i <==> d[i] == 0)
      ensures p[i] != i ==> d[p[i]] < d[i]
      ensures r[p[i]] == r[i] && p[r[i]] == r[i]
    {
      if i != rx {
        assert root[parent[i]] == root[i];
      }
    }
  }

  /**
   * `UnionFind`: the `parent` vector, with path compression in `find`. The
   * ghost `root` and `dist` make it a forest.
   */
  class UnionFind {
    var parent: seq<nat>
    ghost var root: seq<nat>
    ghost var dist: seq<nat>

    ghost predicate Valid()
      reads this
    {
      Forest(parent, root, dist)
    }

    /** `UnionFind::new(n)`: every element its own parent and root. */
    constructor (n: nat)
      ensures Valid() && |parent| == n
      ensures forall i :: 0 <= i < n ==> parent[i] == i && root[i] == i
    {
      parent := seq(n, i => i);
      root := seq(n, i => i);
      dist := seq(n, i => 0);
    }

    /**
     * `find`: the root of `x`. Path compression repoints the cells on the
     * way, but no element changes root.
     */
    method Find(x: nat) returns (r: nat)
      requires Valid() && x < |parent|
      modifies this
      ensures Valid() && |parent| == old(|parent|)
      ensures root == old(root) && dist == old(dist)
      ensures r == root[x] && parent[r] == r
      ensures forall i :: 0 <= i < |parent| && parent[i] != old(parent[i]) ==> dist[i] <= dist[x]
      decreases dist[x]
    {
      if parent[x] != x {
        ghost var p0 := parent;
        assert dist[p0[x]] < dist[x];
        var rp := Find(parent[x]);
        ghost var p1 := parent;
        assert p1[x] == p0[x];
        CompressKeepsForest(parent, root, dist, x);
        parent := parent[x := rp];
        forall i | 0 <= i < |parent| && parent[i] != p0[i]
          ensures dist[i] <= dist[x]
        {
          if i != x {
            assert p1[i] != p0[i];
          }
        }
      }
      r := parent[x];
    }

    /**
     * `union`: the root of `x` is linked under the root of `y`, so the
     * class of `x` joins the class of `y` and no other class changes.
     */
    method Union(x: nat, y: nat)
      requires Valid() && x < |parent| && y < |parent|
      modifies this
      ensures Valid() && |parent| == old(|parent|)
      ensures root == Relinked(old(root), old(root[x]), old(root[y]))
    {
      var rx := Find(x);
      var ry := Find(y);
      if rx != ry {
        LinkKeepsForest(parent, root, dist, rx, ry);
        parent := parent[rx := ry];
        dist := Deepened(root, dist, rx);
        root := Relinked(root, rx, ry);
      } else {
        RelinkSame(root, rx);
      }
    }
  }

  /** Joining a class to itself changes nothing. */
  lemma RelinkSame(root: seq<nat>, r: nat)
    ensures Relinked(root, r, r) == root
  {
  }

  /** After `union(x, y)`, `x` and `y` share a root, and elements that shared one still do. */
  lemma UnionJoins(r0: seq<nat>, x: nat, y: nat, i: nat, j: nat)
    requires x < |r0| && y < |r0|
    ensures Relinked(r0, r0[x], r0[y])[x] == Relinked(r0, r0[x], r0[y])[y]
    ensures i < |r0| && j < |r0| && r0[i] == r0[j] ==> Relinked(r0, r0[x], r0[y])[i] == Relinked(r0, r0[x], r0[y])[j]
  {
  }

  /** A box `(min_x, min_y, max_x, max_y)`. */
  type Box = (nat, nat, nat, nat)

  predicate Inside(box: Box, a: int, b: int)
  {
    box.0 <= a <= box.2 && box.1 <= b <= box.3
  }

  predicate LabelsWf(labels: seq<seq<nat>>, w: nat, h: nat)
  {
    |labels| == h && forall b :: 0 <= b < h ==> |labels[b]| == w
  }

  /** Cell (a, b) comes before (x, y) in row-major order. */
  predicate Earlier(a: int, b: int, x: int, y: int)
  {
    b < y || (b == y && a < x)
  }

  /** The root of label `l`. */
  function Rep(root: seq<nat>, l: nat): nat
  {
    if l < |root| then root[l] else l
  }

  /** A cell position (x, y). */
  type Point = (int, int)

  /** p and q are the same cell or one of its eight neighbours. */
  predicate Adjacent(p: Point, q: Point)
  {
    -1 <= p.0 - q.0 <= 1 && -1 <= p.1 - q.1 <= 1
  }

  /** p is a black cell inside the grid. */
  ghost predicate Black(g: Grid, p: Point)
    requires Wf(g)
  {
    0 <= p.0 < g.width && 0 <= p.1 < g.height && Cell(g, p.0, p.1)
  }

  /** A chain of black cells, each adjacent to the next. */
  ghost predicate Chain(g: Grid, path: seq<Point>)
    requires Wf(g)
  {
    && (forall i :: 0 <= i < |path| ==> Black(g, path[i]))
    && (forall i :: 0 < i < |path| ==> Adjacent(path[i - 1], path[i]))
  }

  /** `path` is a chain of black cells from p to q. */
  ghost predicate Walk(g: Grid, path: seq<Point>, p: Point, q: Point)
    requires Wf(g)
  {
    |path| > 0 && path[0] == p && path[|path| - 1] == q && Chain(g, path)
  }

  /** p and q lie in one 8-connected component of the black cells. */
  ghost predicate Connected(g: Grid, p: Point, q: Point)
    requires Wf(g)
  {
    exists path :: Walk(g, path, p, q)
  }

  /** A black cell is connected to itself. */
  lemma ConnectedRefl(g: Grid, p: Point)
    requires Wf(g) && Black(g, p)
    ensures Connected(g, p, p)
  {
    assert Walk(g, [p], p, p);
  }

  /** A chain extended by an adjacent black cell. */
  lemma ConnectedStep(g: Grid, p: Point, q: Point, r: Point)
    requires Wf(g) && Connected(g, p, q) && Adjacent(q, r) && Black(g, r)
    ensures Connected(g, p, r)
  {
    var path :| Walk(g, path, p, q);
    var path2 := path + [r];
    assert Walk(g, path2, p, r) by {
      forall i | 0 < i < |path2|
        ensures Adjacent(path2[i - 1], path2[i])
      {
        if i < |path| {
          assert path2[i - 1] == path[i - 1] && path2[i] == path[i];
        }
      }
    }
  }

  /** Chains can be walked backwards. */
  lemma ConnectedSym(g: Grid, p: Point, q: Point)
    requires Wf(g) && Connected(g, p, q)
    ensures Connected(g, q, p)
  {
    var path :| Walk(g, path, p, q);
    var n := |path|;
    var back := seq(n, i requires 0 <= i < n => path[n - 1 - i]);
    assert Walk(g, back, q, p) by {
      forall i | 0 < i < n
        ensures Adjacent(back[i - 1], back[i])
      {
        assert Adjacent(path[n - 1 - i], path[n - i]);
      }
    }
  }

  /** Two chains meeting at q make one. */
  lemma ConnectedTrans(g: Grid, p: Point, q: Point, r: Point)
    requires Wf(g) && Connected(g, p, q) && Connected(g, q, r)
    ensures Connected(g, p, r)
  {
    var left :| Walk(g, left, p, q);
    var right :| Walk(g, right, q, r);
    var path := left + right[1..];
    assert Walk(g, path, p, r) by {
      forall i | 0 < i < |path|
        ensures Adjacent(path[i - 1], path[i])
      {
        if i < |left| {
          assert path[i - 1] == left[i - 1] && path[i] == left[i];
        } else {
          assert path[i] == right[i - |left| + 1];
          assert path[i - 1] == right[i - |left|];
        }
      }
      forall i | 0 <= i < |path|
        ensures Black(g, path[i])
      {
        if i >= |left| {
          assert path[i] == right[i - |left| + 1];
        }
      }
    }
  }

  /**
   * The labels after the first pass reached (x, y): a cell before it has a
   * label exactly when it is black, later cells have none, and every label
   * is below `next`.
   */
  ghost predicate Labelled(g: Grid, labels: seq<seq<nat>>, x: int, y: int, next: nat)
    requires Wf(g) && LabelsWf(labels, g.width, g.height)
  {
    forall a, b :: 0 <= a < g.width && 0 <= b < g.height ==>
      labels[b][a] < next
      && (Earlier(a, b, x, y) ==> (labels[b][a] != 0 <==> Cell(g, a, b)))
      && (!Earlier(a, b, x, y) ==> labels[b][a] == 0)
  }

  /** If (c, d) is a black cell, it has the root of (a, b). */
  ghost predicate Linked(g: Grid, labels: seq<seq<nat>>, root: seq<nat>, a: nat, b: nat, c: int, d: int)
    requires Wf(g) && LabelsWf(labels, g.width, g.height) && a < g.width && b < g.height
  {
    0 <= c < g.width && 0 <= d < g.height && Cell(g, c, d) ==> Rep(root, labels[b][a]) == Rep(root, labels[d][c])
  }

  /** Cell (a, b) has the root of its black neighbours left, above, above left and above right. */
  ghost predicate JoinedAt(g: Grid, labels: seq<seq<nat>>, root: seq<nat>, a: nat, b: nat)
    requires Wf(g) && LabelsWf(labels, g.width, g.height) && a < g.width && b < g.height
  {
    && Linked(g, labels, root, a, b, a - 1, b)
    && Linked(g, labels, root, a, b, a, b - 1)
    && Linked(g, labels, root, a, b, a - 1, b - 1)
    && Linked(g, labels, root, a, b, a + 1, b - 1)
  }

  /** Every black cell before (x, y) shares the root of its earlier black neighbours. */
  ghost predicate Joined(g: Grid, labels: seq<seq<nat>>, root: seq<nat>, x: int, y: int)
    requires Wf(g) && LabelsWf(labels, g.width, g.height)
  {
    forall a, b {:trigger JoinedAt(g, labels, root, a, b)} ::
      0 <= a < g.width && 0 <= b < g.height && Earlier(a, b, x, y) && Cell(g, a, b) ==>
      JoinedAt(g, labels, root, a, b)
  }

  /** Uniting two classes keeps every shared root shared. */
  lemma JoinedMapped(g: Grid, labels: seq<seq<nat>>, root: seq<nat>, x: int, y: int, next: nat, rx: nat, ry: nat)
    requires Wf(g) && LabelsWf(labels, g.width, g.height)
    requires Labelled(g, labels, x, y, next) && next <= |root|
    requires Joined(g, labels, root, x, y)
    ensures Joined(g, labels, Relinked(root, rx, ry), x, y)
  {
    forall a, b | 0 <= a < g.width && 0 <= b < g.height && Earlier(a, b, x, y) && Cell(g, a, b)
      ensures JoinedAt(g, labels, Relinked(root, rx, ry), a, b)
    {
      assert JoinedAt(g, labels, root, a, b);
    }
  }

  /** (c, d) is a black cell labelled `l`. */
  ghost predicate LabelledAs(g: Grid, labels: seq<seq<nat>>, c: int, d: int, l: nat)
    requires Wf(g) && LabelsWf(labels, g.width, g.height)
  {
    0 <= c < g.width && 0 <= d < g.height && Cell(g, c, d) && labels[d][c] == l
  }

  /** `l` is the label of a black neighbour of (x, y) to the left, above, above left or above right. */
  ghost predicate NearLabel(g: Grid, labels: seq<seq<nat>>, x: int, y: int, l: nat)
    requires Wf(g) && LabelsWf(labels, g.width, g.height)
  {
    || LabelledAs(g, labels, x - 1, y, l) || LabelledAs(g, labels, x, y - 1, l)
    || LabelledAs(g, labels, x - 1, y - 1, l) || LabelledAs(g, labels, x + 1, y - 1, l)
  }

  /** The neighbour a `NearLabel` speaks of. */
  lemma NeighbourCell(g: Grid, labels: seq<seq<nat>>, x: int, y: int, l: nat) returns (n: Point)
    requires Wf(g) && LabelsWf(labels, g.width, g.height) && NearLabel(g, labels, x, y, l)
    ensures Black(g, n) && Adjacent(n, (x, y)) && Earlier(n.0, n.1, x, y) && labels[n.1][n.0] == l
  {
    if LabelledAs(g, labels, x - 1, y, l) {
      n := (x - 1, y);
    } else if LabelledAs(g, labels, x, y - 1, l) {
      n := (x, y - 1);
    } else if LabelledAs(g, labels, x - 1, y - 1, l) {
      n := (x - 1, y - 1);
    } else {
      n := (x + 1, y - 1);
    }
  }

  /** If (a, b) and (c, d) are black cells with one root, a chain of black cells joins them. */
  ghost predicate Reaches(g: Grid, labels: seq<seq<nat>>, root: seq<nat>, a: int, b: int, c: int, d: int)
    requires Wf(g) && LabelsWf(labels, g.width, g.height)
  {
    (0 <= a < g.width && 0 <= b < g.height && 0 <= c < g.width && 0 <= d < g.height &&
     Cell(g, a, b) && Cell(g, c, d) && Rep(root, labels[b][a]) == Rep(root, labels[d][c]))
    ==> Connected(g, (a, b), (c, d))
  }

  /** Any two black cells before (x, y) with one root are joined by a chain of black cells. */
  ghost predicate ClassesConnected(g: Grid, labels: seq<seq<nat>>, root: seq<nat>, x: int, y: int)
    requires Wf(g) && LabelsWf(labels, g.width, g.height)
  {
    forall a, b, c, d {:trigger Reaches(g, labels, root, a, b, c, d)} ::
      Earlier(a, b, x, y) && Earlier(c, d, x, y) ==> Reaches(g, labels, root, a, b, c, d)
  }

  /** Every black cell before (x, y) with the root of label `v` is joined to (x, y) by a chain. */
  ghost predicate ReachesHere(g: Grid, labels: seq<seq<nat>>, root: seq<nat>, v: nat, x: int, y: int)
    requires Wf(g) && LabelsWf(labels, g.width, g.height)
  {
    forall a, b ::
      (0 <= a < g.width && 0 <= b < g.height && Earlier(a, b, x, y) && Cell(g, a, b) &&
       Rep(root, labels[b][a]) == Rep(root, v)) ==> Connected(g, (a, b), (x, y))
  }

  /** Labels below `next` have roots below `next`; the labels not yet handed out are still alone. */
  ghost predicate Fresh(root: seq<nat>, next: nat)
  {
    && (forall l :: 0 <= l < |root| && l < next ==> root[l] < next)
    && (forall l :: next <= l < |root| ==> root[l] == l)
  }

  /** Every element of `s` has the root of `m`. */
  ghost predicate AllWith(root: seq<nat>, s: seq<nat>, m: nat)
  {
    forall t :: t in s ==> Rep(root, t) == Rep(root, m)
  }

  /**
   * Before (0, 0), with every label 0 and a union-find of singletons,
   * nothing is labelled, joined or connected yet, and label 1 is fresh.
   */
  lemma PassStart(g: Grid, labels: seq<seq<nat>>, root: seq<nat>)
    requires Wf(g) && LabelsWf(labels, g.width, g.height)
    requires forall a, b :: 0 <= a < g.width && 0 <= b < g.height ==> labels[b][a] == 0
    requires forall i :: 0 <= i < |root| ==> root[i] == i
    ensures Labelled(g, labels, 0, 0, 1) && Joined(g, labels, root, 0, 0)
    ensures ClassesConnected(g, labels, root, 0, 0) && Fresh(root, 1)
  {
  }

  /** A black cell with neighbour label `m` reaches every earlier cell with the root of `m`. */
  lemma StartHere(g: Grid, labels: seq<seq<nat>>, root: seq<nat>, m: nat, x: nat, y: nat)
    requires Wf(g) && LabelsWf(labels, g.width, g.height) && x < g.width && y < g.height && Cell(g, x, y)
    requires NearLabel(g, labels, x, y, m) && ClassesConnected(g, labels, root, x, y)
    ensures ReachesHere(g, labels, root, m, x, y)
  {
    var n := NeighbourCell(g, labels, x, y, m);
    forall a, b | 0 <= a < g.width && 0 <= b < g.height && Earlier(a, b, x, y) && Cell(g, a, b) &&
      Rep(root, labels[b][a]) == Rep(root, m)
      ensures Connected(g, (a, b), (x, y))
    {
      assert Reaches(g, labels, root, a, b, n.0, n.1);
      ConnectedStep(g, (a, b), n, (x, y));
    }
  }

  /**
   * `uf.union(m, l)` for the neighbour label `l`: the classes of `m` and `l`
   * merge, and each member of either is joined to (x, y) by a chain, so
   * every class stays connected and the class of `m` still reaches (x, y).
   */
  lemma UnionConnects(g: Grid, labels: seq<seq<nat>>, r0: seq<nat>, x: nat, y: nat, m: nat, l: nat, next: nat)
    requires Wf(g) && LabelsWf(labels, g.width, g.height) && x < g.width && y < g.height && Cell(g, x, y)
    requires Labelled(g, labels, x, y, next) && next <= |r0| && m < next && l < next
    requires NearLabel(g, labels, x, y, l)
    requires ClassesConnected(g, labels, r0, x, y) && ReachesHere(g, labels, r0, m, x, y) && Fresh(r0, next)
    ensures ClassesConnected(g, labels, Relinked(r0, r0[m], r0[l]), x, y)
    ensures ReachesHere(g, labels, Relinked(r0, r0[m], r0[l]), m, x, y)
    ensures Fresh(Relinked(r0, r0[m], r0[l]), next)
  {
    var r1 := Relinked(r0, r0[m], r0[l]);
    var n := NeighbourCell(g, labels, x, y, l);
    var here: Point := (x, y);
    assert Black(g, here);
    forall a, b | 0 <= a < g.width && 0 <= b < g.height && Earlier(a, b, x, y) && Cell(g, a, b) &&
      Rep(r1, labels[b][a]) == r0[l]
      ensures Connected(g, (a, b), here)
    {
      if r0[labels[b][a]] != r0[m] {
        assert Reaches(g, labels, r0, a, b, n.0, n.1);
        ConnectedStep(g, (a, b), n, here);
      }
    }
    forall a, b, c, d | Earlier(a, b, x, y) && Earlier(c, d, x, y)
      ensures Reaches(g, labels, r1, a, b, c, d)
    {
      if 0 <= a < g.width && 0 <= b < g.height && 0 <= c < g.width && 0 <= d < g.height &&
        Cell(g, a, b) && Cell(g, c, d) && Rep(r1, labels[b][a]) == Rep(r1, labels[d][c])
      {
        var p, q := labels[b][a], labels[d][c];
        if r0[p] == r0[m] && r0[q] != r0[m] {
          ConnectedSym(g, (c, d), here);
          ConnectedTrans(g, (a, b), here, (c, d));
        } else if r0[q] == r0[m] && r0[p] != r0[m] {
          ConnectedSym(g, (c, d), here);
          ConnectedTrans(g, (a, b), here, (c, d));
        } else {
          assert Reaches(g, labels, r0, a, b, c, d);
        }
      }
    }
  }

  /** One `uf.union(m, l)` of the first pass keeps cells joined and classes connected. */
  lemma UniteStep(g: Grid, labels: seq<seq<nat>>, r0: seq<nat>, x: nat, y: nat, m: nat, l: nat, next: nat, done: seq<nat>)
    requires Wf(g) && LabelsWf(labels, g.width, g.height) && x < g.width && y < g.height && Cell(g, x, y)
    requires Labelled(g, labels, x, y, next) && next <= |r0| && m < next && l < next
    requires NearLabel(g, labels, x, y, l) && Joined(g, labels, r0, x, y)
    requires ClassesConnected(g, labels, r0, x, y) && ReachesHere(g, labels, r0, m, x, y) && Fresh(r0, next)
    requires AllWith(r0, done, m)
    ensures AllWith(Relinked(r0, r0[m], r0[l]), done + [l], m)
    ensures Joined(g, labels, Relinked(r0, r0[m], r0[l]), x, y)
    ensures ClassesConnected(g, labels, Relinked(r0, r0[m], r0[l]), x, y)
    ensures ReachesHere(g, labels, Relinked(r0, r0[m], r0[l]), m, x, y)
    ensures Fresh(Relinked(r0, r0[m], r0[l]), next)
  {
    JoinedMapped(g, labels, r0, x, y, next, r0[m], r0[l]);
    UnionConnects(g, labels, r0, x, y, m, l, next);
  }

  /** Giving the black cell (x, y) a label whose class reaches it keeps every class connected. */
  lemma ConnectsExtend(g: Grid, labels: seq<seq<nat>>, root: seq<nat>, x: nat, y: nat, v: nat)
    requires Wf(g) && LabelsWf(labels, g.width, g.height) && x < g.width && y < g.height && Cell(g, x, y)
    requires ClassesConnected(g, labels, root, x, y) && ReachesHere(g, labels, root, v, x, y)
    ensures LabelsWf(Relabel(labels, x, y, v), g.width, g.height)
    ensures ClassesConnected(g, Relabel(labels, x, y, v), root, x + 1, y)
  {
    var labels2 := Relabel(labels, x, y, v);
    var here: Point := (x, y);
    assert Black(g, here);
    ConnectedRefl(g, here);
    forall a, b, c, d | Earlier(a, b, x + 1, y) && Earlier(c, d, x + 1, y)
      ensures Reaches(g, labels2, root, a, b, c, d)
    {
      if 0 <= a < g.width && 0 <= b < g.height && 0 <= c < g.width && 0 <= d < g.height &&
        Cell(g, a, b) && Cell(g, c, d) && Rep(root, labels2[b][a]) == Rep(root, labels2[d][c])
      {
        if (a, b) == here && (c, d) != here {
          ConnectedSym(g, (c, d), here);
        } else if (a, b) != here && (c, d) != here {
          assert Reaches(g, labels, root, a, b, c, d);
        }
      }
    }
  }

  /** A white cell adds nothing to connect. */
  lemma ConnectsSkip(g: Grid, labels: seq<seq<nat>>, root: seq<nat>, x: nat, y: nat)
    requires Wf(g) && LabelsWf(labels, g.width, g.height) && x < g.width && y < g.height && !Cell(g, x, y)
    requires ClassesConnected(g, labels, root, x, y)
    ensures ClassesConnected(g, labels, root, x + 1, y)
  {
    forall a, b, c, d | Earlier(a, b, x + 1, y) && Earlier(c, d, x + 1, y)
      ensures Reaches(g, labels, root, a, b, c, d)
    {
      if (a != x || b != y) && (c != x || d != y) {
        assert Reaches(g, labels, root, a, b, c, d);
      }
    }
  }

  /** A fresh label's class holds no earlier cell. */
  lemma FreshHere(g: Grid, labels: seq<seq<nat>>, root: seq<nat>, x: nat, y: nat, next: nat)
    requires Wf(g) && LabelsWf(labels, g.width, g.height)
    requires Labelled(g, labels, x, y, next) && Fresh(root, next)
    ensures ReachesHere(g, labels, root, next, x, y)
    ensures Fresh(root, next + 1)
  {
    forall a, b | 0 <= a < g.width && 0 <= b < g.height
      ensures Rep(root, labels[b][a]) != Rep(root, next)
    {
      assert labels[b][a] < next;
    }
  }

  /** The end of a row is the start of the next one. */
  lemma ConnectsRowDone(g: Grid, labels: seq<seq<nat>>, root: seq<nat>, y: nat)
    requires Wf(g) && LabelsWf(labels, g.width, g.height)
    requires ClassesConnected(g, labels, root, g.width, y)
    ensures ClassesConnected(g, labels, root, 0, y + 1)
  {
    forall a, b, c, d | Earlier(a, b, 0, y + 1) && Earlier(c, d, 0, y + 1)
      ensures Reaches(g, labels, root, a, b, c, d)
    {
      if 0 <= a < g.width && 0 <= c < g.width {
        assert Reaches(g, labels, root, a, b, c, d);
      }
    }
  }

  /** The smallest element of a non-empty sequence. */
  function Min(s: seq<nat>): (m: nat)
    requires |s| > 0
    ensures m in s && forall e :: e in s ==> m <= e
  {
    if |s| == 1 then s[0]
    else
      var t := Min(s[1..]);
      assert forall e :: e in s ==> e == s[0] || e in s[1..];
      if s[0] <= t then s[0] else t
  }

  /** When (c, d) is a black cell, its label is in `nl`. */
  ghost predicate Listed(g: Grid, labels: seq<seq<nat>>, nl: seq<nat>, c: int, d: int)
    requires Wf(g) && LabelsWf(labels, g.width, g.height)
  {
    0 <= c < g.width && 0 <= d < g.height && Cell(g, c, d) ==> labels[d][c] in nl
  }

  /** The label of (c, d) when it is a black cell, else nothing. */
  function Probed(g: Grid, labels: seq<seq<nat>>, c: int, d: int): (r: seq<nat>)
    requires Wf(g) && LabelsWf(labels, g.width, g.height)
    ensures forall l :: l in r ==> LabelledAs(g, labels, c, d, l)
  {
    if 0 <= c < g.width && 0 <= d < g.height && Cell(g, c, d) then [labels[d][c]] else []
  }

  /** `matrix.get` on (c, d), guarded by the bounds checks: the cell's label when it is black. */
  method Probe(matrix: BitMatrix, labels: seq<seq<nat>>, c: int, d: int) returns (found: seq<nat>)
    requires matrix.Valid() && LabelsWf(labels, matrix.width, matrix.height)
    ensures found == if 0 <= c < matrix.width && 0 <= d < matrix.height && Cell(matrix.grid, c, d) then [labels[d][c]] else []
    ensures found == Probed(matrix.grid, labels, c, d)
  {
    found := [];
    if 0 <= c && 0 <= d {
      var black := matrix.Get(c, d);
      if black {
        found := [labels[d][c]];
      }
    }
  }

  /**
   * Labels of the earlier black neighbours of (x, y), in the order the
   * source checks them (left, above, above left, above right): every such
   * neighbour's label is there, each listed label is such a neighbour's,
   * and each is a label already handed out.
   */
  method NeighbourLabels(matrix: BitMatrix, labels: seq<seq<nat>>, next: nat, x: nat, y: nat) returns (nl: seq<nat>)
    requires matrix.Valid() && LabelsWf(labels, matrix.width, matrix.height)
    requires x < matrix.width && y < matrix.height && Labelled(matrix.grid, labels, x, y, next)
    ensures Listed(matrix.grid, labels, nl, x - 1, y) && Listed(matrix.grid, labels, nl, x, y - 1)
    ensures Listed(matrix.grid, labels, nl, x - 1, y - 1) && Listed(matrix.grid, labels, nl, x + 1, y - 1)
    ensures forall l :: l in nl ==> NearLabel(matrix.grid, labels, x, y, l)
    ensures forall l :: l in nl ==> 1 <= l < next
  {
    var left := Probe(matrix, labels, x - 1, y);
    var above := Probe(matrix, labels, x, y - 1);
    var aboveLeft := Probe(matrix, labels, x - 1, y - 1);
    var aboveRight := Probe(matrix, labels, x + 1, y - 1);
    nl := left + above + aboveLeft + aboveRight;
    NeighbourList(matrix.grid, labels, x, y, next, left, above, aboveLeft, aboveRight);
  }

  /** The four probes of (x, y) together list exactly the labels of its earlier black neighbours. */
  lemma NeighbourList(g: Grid, labels: seq<seq<nat>>, x: nat, y: nat, next: nat, left: seq<nat>, above: seq<nat>, aboveLeft: seq<nat>, aboveRight: seq<nat>)
    requires Wf(g) && LabelsWf(labels, g.width, g.height)
    requires x < g.width && y < g.height && Labelled(g, labels, x, y, next)
    requires left == Probed(g, labels, x - 1, y) && above == Probed(g, labels, x, y - 1)
    requires aboveLeft == Probed(g, labels, x - 1, y - 1) && aboveRight == Probed(g, labels, x + 1, y - 1)
    ensures var nl := left + above + aboveLeft + aboveRight;
      && Listed(g, labels, nl, x - 1, y) && Listed(g, labels, nl, x, y - 1)
      && Listed(g, labels, nl, x - 1, y - 1) && Listed(g, labels, nl, x + 1, y - 1)
      && (forall l :: l in nl ==> NearLabel(g, labels, x, y, l))
      && (forall l :: l in nl ==> 1 <= l < next)
  {
    var nl := left + above + aboveLeft + aboveRight;
    forall l | l in nl
      ensures NearLabel(g, labels, x, y, l) && 1 <= l < next
    {
      assert l in left || l in above || l in aboveLeft || l in aboveRight;
      NearLabelIssued(g, labels, x, y, next, l);
    }
  }

  /** A neighbour label of (x, y) is one already handed out. */
  lemma NearLabelIssued(g: Grid, labels: seq<seq<nat>>, x: nat, y: nat, next: nat, l: nat)
    requires Wf(g) && LabelsWf(labels, g.width, g.height) && Labelled(g, labels, x, y, next)
    requires NearLabel(g, labels, x, y, l)
    ensures 1 <= l < next
  {
    var n := NeighbourCell(g, labels, x, y, l);
    assert Earlier(n.0, n.1, x, y) && Cell(g, n.0, n.1);
  }

  /** `labels` with (x, y) set to `v`. */
  function Relabel(labels: seq<seq<nat>>, x: nat, y: nat, v: nat): (r: seq<seq<nat>>)
    requires y < |labels| && x < |labels[y]|
    ensures |r| == |labels|
    ensures forall b :: 0 <= b < |labels| ==> |r[b]| == |labels[b]|
    ensures r[y][x] == v
    ensures labels[y][x] == v ==> r == labels
    ensures forall a, b :: 0 <= b < |labels| && 0 <= a < |labels[b]| && (a != x || b != y) ==> r[b][a] == labels[b][a]
  {
    var row: seq<nat> := labels[y][x := v];
    assert labels[y][x] == v ==> row == labels[y];
    labels[y := row]
  }

  /**
   * Labelling (x, y) keeps every earlier black cell joined to its earlier
   * neighbours, since neither it nor they are (x, y).
   */
  lemma JoinedExtend(g: Grid, labels: seq<seq<nat>>, root: seq<nat>, x: nat, y: nat, v: nat)
    requires Wf(g) && LabelsWf(labels, g.width, g.height) && x < g.width && y < g.height
    requires Joined(g, labels, root, x, y)
    requires Cell(g, x, y) ==> JoinedAt(g, Relabel(labels, x, y, v), root, x, y)
    ensures LabelsWf(Relabel(labels, x, y, v), g.width, g.height)
    ensures Joined(g, Relabel(labels, x, y, v), root, x + 1, y)
  {
    var labels2 := Relabel(labels, x, y, v);
    forall a, b | 0 <= a < g.width && 0 <= b < g.height && Earlier(a, b, x + 1, y) && Cell(g, a, b)
      ensures JoinedAt(g, labels2, root, a, b)
    {
      if a != x || b != y {
        assert JoinedAt(g, labels, root, a, b);
      }
    }
  }

  /** Giving (x, y) label `v`, non-zero exactly when it is black, moves the labelled part one cell on. */
  lemma LabelledStep(g: Grid, labels: seq<seq<nat>>, x: nat, y: nat, next: nat, v: nat, next2: nat)
    requires Wf(g) && LabelsWf(labels, g.width, g.height) && x < g.width && y < g.height
    requires Labelled(g, labels, x, y, next) && next <= next2 && v < next2
    requires v != 0 <==> Cell(g, x, y)
    ensures LabelsWf(Relabel(labels, x, y, v), g.width, g.height)
    ensures Labelled(g, Relabel(labels, x, y, v), x + 1, y, next2)
  {
  }

  /** The end of a row is the start of the next one. */
  lemma RowDone(g: Grid, labels: seq<seq<nat>>, root: seq<nat>, y: nat, next: nat)
    requires Wf(g) && LabelsWf(labels, g.width, g.height)
    requires Labelled(g, labels, g.width, y, next) && Joined(g, labels, root, g.width, y)
    ensures Labelled(g, labels, 0, y + 1, next) && Joined(g, labels, root, 0, y + 1)
  {
    forall a, b | 0 <= a < g.width && 0 <= b < g.height
      ensures Earlier(a, b, g.width, y) == Earlier(a, b, 0, y + 1)
    {
    }
  }

  /**
   * The first pass at (x, y): a white cell keeps label 0; a black one takes
   * a fresh label when it has no earlier black neighbour, otherwise the
   * smallest of their labels, and their labels are united.
   */
  method LabelPixel(matrix: BitMatrix, uf: UnionFind, labels: seq<seq<nat>>, next: nat, x: nat, y: nat)
    returns (labels2: seq<seq<nat>>, next2: nat)
    requires matrix.Valid() && uf.Valid() && matrix.width * matrix.height <= |uf.parent|
    requires x < matrix.width && y < matrix.height && LabelsWf(labels, matrix.width, matrix.height)
    requires 1 <= next <= Index(matrix.width, x, y) + 1
    requires Labelled(matrix.grid, labels, x, y, next) && Joined(matrix.grid, labels, uf.root, x, y)
    requires ClassesConnected(matrix.grid, labels, uf.root, x, y) && Fresh(uf.root, next)
    modifies uf
    ensures uf.Valid() && |uf.parent| == old(|uf.parent|)
    ensures LabelsWf(labels2, matrix.width, matrix.height)
    ensures 1 <= next2 <= Index(matrix.width, x, y) + 2
    ensures Labelled(matrix.grid, labels2, x + 1, y, next2) && Joined(matrix.grid, labels2, uf.root, x + 1, y)
    ensures ClassesConnected(matrix.grid, labels2, uf.root, x + 1, y) && Fresh(uf.root, next2)
  {
    ghost var g := matrix.grid;
    IndexFacts(matrix.width, matrix.height, x, y);
    var black := matrix.Get(x, y);
    if !black {
      JoinedExtend(g, labels, uf.root, x, y, 0);
      LabelledStep(g, labels, x, y, next, 0, next);
      ConnectsSkip(g, labels, uf.root, x, y);
      return labels, next;
    }
    var nl := NeighbourLabels(matrix, labels, next, x, y);
    if |nl| == 0 {
      labels2 := Relabel(labels, x, y, next);
      next2 := next + 1;
      JoinedExtend(g, labels, uf.root, x, y, next);
      LabelledStep(g, labels, x, y, next, next, next2);
      FreshHere(g, labels, uf.root, x, y, next);
      ConnectsExtend(g, labels, uf.root, x, y, next);
    } else {
      var m := Min(nl);
      UniteAll(uf, nl, m, g, labels, x, y, next);
      labels2 := Relabel(labels, x, y, m);
      next2 := next;
      JoinedExtend(g, labels, uf.root, x, y, m);
      LabelledStep(g, labels, x, y, next, m, next2);
      ConnectsExtend(g, labels, uf.root, x, y, m);
    }
  }

  /**
   * `uf.union(min_label, l)` for every other neighbour label `l`: all of
   * them end up with the root of `m`, earlier cells stay joined, every
   * class stays connected, and the class of `m` reaches (x, y).
   */
  method UniteAll(uf: UnionFind, nl: seq<nat>, m: nat, ghost g: Grid, ghost labels: seq<seq<nat>>, ghost x: nat, ghost y: nat, ghost next: nat)
    requires uf.Valid() && Wf(g) && LabelsWf(labels, g.width, g.height)
    requires x < g.width && y < g.height && Cell(g, x, y)
    requires next <= |uf.parent| && m in nl && forall l :: l in nl ==> l < next && NearLabel(g, labels, x, y, l)
    requires Labelled(g, labels, x, y, next) && Joined(g, labels, uf.root, x, y)
    requires ClassesConnected(g, labels, uf.root, x, y) && Fresh(uf.root, next)
    modifies uf
    ensures uf.Valid() && |uf.parent| == old(|uf.parent|)
    ensures forall j :: 0 <= j < |nl| ==> Rep(uf.root, nl[j]) == Rep(uf.root, m)
    ensures Joined(g, labels, uf.root, x, y)
    ensures ClassesConnected(g, labels, uf.root, x, y) && ReachesHere(g, labels, uf.root, m, x, y)
    ensures Fresh(uf.root, next)
  {
    StartHere(g, labels, uf.root, m, x, y);
    for k := 0 to |nl|
      invariant uf.Valid() && |uf.parent| == old(|uf.parent|)
      invariant AllWith(uf.root, nl[..k], m)
      invariant Joined(g, labels, uf.root, x, y)
      invariant ClassesConnected(g, labels, uf.root, x, y) && ReachesHere(g, labels, uf.root, m, x, y)
      invariant Fresh(uf.root, next)
    {
      assert nl[..k + 1] == nl[..k] + [nl[k]];
      if nl[k] != m {
        ghost var r0 := uf.root;
        assert nl[k] in nl;
        uf.Union(m, nl[k]);
        UniteStep(g, labels, r0, x, y, m, nl[k], next, nl[..k]);
      }
    }
    assert nl[..|nl|] == nl;
  }

  /**
   * The first pass, from a union-find of singletons: every black cell
   * labelled and joined to its earlier black neighbours, and any two black
   * cells with one root joined by a chain of black cells.
   */
  method FirstPass(matrix: BitMatrix, uf: UnionFind) returns (labels: seq<seq<nat>>, next: nat)
    requires matrix.Valid() && uf.Valid() && matrix.width * matrix.height <= |uf.parent|
    requires forall i :: 0 <= i < |uf.root| ==> uf.root[i] == i
    modifies uf
    ensures uf.Valid() && |uf.parent| == old(|uf.parent|)
    ensures LabelsWf(labels, matrix.width, matrix.height) && 1 <= next <= matrix.width * matrix.height + 1
    ensures Labelled(matrix.grid, labels, 0, matrix.height, next)
    ensures Joined(matrix.grid, labels, uf.root, 0, matrix.height)
    ensures ClassesConnected(matrix.grid, labels, uf.root, 0, matrix.height)
  {
    var w := matrix.width;
    var h := matrix.height;
    labels := seq(h, _ => seq(w, _ => 0));
    next := 1;
    PassStart(matrix.grid, labels, uf.root);
    for y := 0 to h
      invariant uf.Valid() && |uf.parent| == old(|uf.parent|)
      invariant LabelsWf(labels, w, h) && 1 <= next <= y * w + 1
      invariant Labelled(matrix.grid, labels, 0, y, next) && Joined(matrix.grid, labels, uf.root, 0, y)
      invariant ClassesConnected(matrix.grid, labels, uf.root, 0, y) && Fresh(uf.root, next)
    {
      labels, next := LabelRow(matrix, uf, labels, next, y);
    }
  }

  /** Row `y` of the first pass: the labelled, joined and connected prefix moves to the next row. */
  method LabelRow(matrix: BitMatrix, uf: UnionFind, labels: seq<seq<nat>>, next: nat, y: nat)
    returns (labels2: seq<seq<nat>>, next2: nat)
    requires matrix.Valid() && uf.Valid() && matrix.width * matrix.height <= |uf.parent|
    requires y < matrix.height && LabelsWf(labels, matrix.width, matrix.height) && 1 <= next <= y * matrix.width + 1
    requires Labelled(matrix.grid, labels, 0, y, next) && Joined(matrix.grid, labels, uf.root, 0, y)
    requires ClassesConnected(matrix.grid, labels, uf.root, 0, y) && Fresh(uf.root, next)
    modifies uf
    ensures uf.Valid() && |uf.parent| == old(|uf.parent|)
    ensures LabelsWf(labels2, matrix.width, matrix.height) && 1 <= next2 <= (y + 1) * matrix.width + 1
    ensures Labelled(matrix.grid, labels2, 0, y + 1, next2) && Joined(matrix.grid, labels2, uf.root, 0, y + 1)
    ensures ClassesConnected(matrix.grid, labels2, uf.root, 0, y + 1) && Fresh(uf.root, next2)
  {
    var w := matrix.width;
    labels2, next2 := labels, next;
    for x := 0 to w
      invariant uf.Valid() && |uf.parent| == old(|uf.parent|)
      invariant LabelsWf(labels2, w, matrix.height) && 1 <= next2 <= Index(w, x, y) + 1
      invariant Labelled(matrix.grid, labels2, x, y, next2) && Joined(matrix.grid, labels2, uf.root, x, y)
      invariant ClassesConnected(matrix.grid, labels2, uf.root, x, y) && Fresh(uf.root, next2)
    {
      labels2, next2 := LabelPixel(matrix, uf, labels2, next2, x, y);
    }
    RowDone(matrix.grid, labels2, uf.root, y, next2);
    ConnectsRowDone(matrix.grid, labels2, uf.root, y);
    assert Index(w, w, y) == (y + 1) * w;
  }

  /** (a, b) is a black cell whose label has root `k`. */
  ghost predicate InRegion(g: Grid, labels: seq<seq<nat>>, root: seq<nat>, k: nat, a: int, b: int)
    requires Wf(g) && LabelsWf(labels, g.width, g.height)
  {
    0 <= a < g.width && 0 <= b < g.height && Cell(g, a, b) && Rep(root, labels[b][a]) == k
  }

  /** Some cell of region `k` before (x, y) lies in column `col`. */
  ghost predicate ColumnHit(g: Grid, labels: seq<seq<nat>>, root: seq<nat>, k: nat, col: nat, x: int, y: int)
    requires Wf(g) && LabelsWf(labels, g.width, g.height)
  {
    exists b :: 0 <= b < g.height && Earlier(col, b, x, y) && InRegion(g, labels, root, k, col, b)
  }

  /** Some cell of region `k` before (x, y) lies in row `row`. */
  ghost predicate RowHit(g: Grid, labels: seq<seq<nat>>, root: seq<nat>, k: nat, row: nat, x: int, y: int)
    requires Wf(g) && LabelsWf(labels, g.width, g.height)
  {
    exists a :: 0 <= a < g.width && Earlier(a, row, x, y) && InRegion(g, labels, root, k, a, row)
  }

  /**
   * The box of region `k`, over the cells before (x, y): inside the grid,
   * and each of its four sides touched by a cell of the region.
   */
  ghost predicate TightBox(g: Grid, labels: seq<seq<nat>>, root: seq<nat>, k: nat, box: Box, x: int, y: int)
    requires Wf(g) && LabelsWf(labels, g.width, g.height)
  {
    && box.0 <= box.2 < g.width && box.1 <= box.3 < g.height
    && ColumnHit(g, labels, root, k, box.0, x, y) && ColumnHit(g, labels, root, k, box.2, x, y)
    && RowHit(g, labels, root, k, box.1, x, y) && RowHit(g, labels, root, k, box.3, x, y)
  }

  /**
   * The boxes after the second pass reached (x, y): every black cell before
   * it lies in the box of its root, and every box is the tight box of its
   * root's cells so far.
   */
  ghost predicate Boxed(g: Grid, labels: seq<seq<nat>>, root: seq<nat>, boxes: map<nat, Box>, x: int, y: int)
    requires Wf(g) && LabelsWf(labels, g.width, g.height)
  {
    Covered(g, labels, root, boxes, x, y) && AllTight(g, labels, root, boxes, x, y)
  }

  /** Every black cell before (x, y) lies in the box of its root. */
  ghost predicate Covered(g: Grid, labels: seq<seq<nat>>, root: seq<nat>, boxes: map<nat, Box>, x: int, y: int)
    requires Wf(g) && LabelsWf(labels, g.width, g.height)
  {
    forall a, b :: 0 <= a < g.width && 0 <= b < g.height && Earlier(a, b, x, y) && Cell(g, a, b) ==>
      Rep(root, labels[b][a]) in boxes && Inside(boxes[Rep(root, labels[b][a])], a, b)
  }

  /** Every box is the tight box of its root's cells before (x, y). */
  ghost predicate AllTight(g: Grid, labels: seq<seq<nat>>, root: seq<nat>, boxes: map<nat, Box>, x: int, y: int)
    requires Wf(g) && LabelsWf(labels, g.width, g.height)
  {
    forall k :: k in boxes ==> TightBox(g, labels, root, k, boxes[k], x, y)
  }

  /** A white cell leaves the boxes covering everything up to the next cell. */
  lemma CoveredSkip(g: Grid, labels: seq<seq<nat>>, root: seq<nat>, boxes: map<nat, Box>, x: nat, y: nat)
    requires Wf(g) && LabelsWf(labels, g.width, g.height) && x < g.width && y < g.height
    requires Covered(g, labels, root, boxes, x, y) && !Cell(g, x, y)
    ensures Covered(g, labels, root, boxes, x + 1, y)
  {
  }

  /** Growing the box of the root of (x, y) to hold it covers everything up to the next cell. */
  lemma CoveredGrow(g: Grid, labels: seq<seq<nat>>, root: seq<nat>, boxes: map<nat, Box>, x: nat, y: nat, entry: Box)
    requires Wf(g) && LabelsWf(labels, g.width, g.height) && x < g.width && y < g.height
    requires Covered(g, labels, root, boxes, x, y)
    requires Inside(entry, x, y)
    requires var r := Rep(root, labels[y][x]); r in boxes ==> forall a, b :: Inside(boxes[r], a, b) ==> Inside(entry, a, b)
    ensures Covered(g, labels, root, boxes[Rep(root, labels[y][x]) := entry], x + 1, y)
  {
  }

  /** What is touched before (x, y) is touched before any later cell. */
  lemma TightLater(g: Grid, labels: seq<seq<nat>>, root: seq<nat>, k: nat, box: Box, x: int, y: int, x2: int, y2: int)
    requires Wf(g) && LabelsWf(labels, g.width, g.height)
    requires TightBox(g, labels, root, k, box, x, y) && (y2 > y || (y2 == y && x2 >= x))
    ensures TightBox(g, labels, root, k, box, x2, y2)
  {
    var b0 :| 0 <= b0 < g.height && Earlier(box.0, b0, x, y) && InRegion(g, labels, root, k, box.0, b0);
    assert Earlier(box.0, b0, x2, y2);
    var b2 :| 0 <= b2 < g.height && Earlier(box.2, b2, x, y) && InRegion(g, labels, root, k, box.2, b2);
    assert Earlier(box.2, b2, x2, y2);
    var a1 :| 0 <= a1 < g.width && Earlier(a1, box.1, x, y) && InRegion(g, labels, root, k, a1, box.1);
    assert Earlier(a1, box.1, x2, y2);
    var a3 :| 0 <= a3 < g.width && Earlier(a3, box.3, x, y) && InRegion(g, labels, root, k, a3, box.3);
    assert Earlier(a3, box.3, x2, y2);
  }

  /** The boxes at the end of a row are the boxes at the start of the next. */
  lemma BoxedRowDone(g: Grid, labels: seq<seq<nat>>, root: seq<nat>, boxes: map<nat, Box>, y: nat)
    requires Wf(g) && LabelsWf(labels, g.width, g.height)
    requires Boxed(g, labels, root, boxes, g.width, y)
    ensures Boxed(g, labels, root, boxes, 0, y + 1)
  {
    forall k | k in boxes
      ensures TightBox(g, labels, root, k, boxes[k], 0, y + 1)
    {
      TightLater(g, labels, root, k, boxes[k], g.width, y, 0, y + 1);
    }
    forall a, b | 0 <= a < g.width && 0 <= b < g.height
      ensures Earlier(a, b, g.width, y) == Earlier(a, b, 0, y + 1)
    {
    }
  }

  /** The box of region `k` grown by (x, y), a cell of the region, stays tight. */
  lemma TightGrow(g: Grid, labels: seq<seq<nat>>, root: seq<nat>, k: nat, e: Box, x: nat, y: nat)
    requires Wf(g) && LabelsWf(labels, g.width, g.height)
    requires TightBox(g, labels, root, k, e, x, y) && InRegion(g, labels, root, k, x, y)
    ensures TightBox(g, labels, root, k, Grow(e, x, y), x + 1, y)
  {
    TightLater(g, labels, root, k, e, x, y, x + 1, y);
    assert Earlier(x, y, x + 1, y);
  }

  /** A region's first cell is its own tight box. */
  lemma TightFirst(g: Grid, labels: seq<seq<nat>>, root: seq<nat>, k: nat, x: nat, y: nat)
    requires Wf(g) && LabelsWf(labels, g.width, g.height) && InRegion(g, labels, root, k, x, y)
    ensures TightBox(g, labels, root, k, (x, y, x, y), x + 1, y)
  {
    assert Earlier(x, y, x + 1, y);
  }

  /** The box widened to hold (x, y): `entry.0 = entry.0.min(x)` and so on. */
  function Grow(e: Box, x: nat, y: nat): (r: Box)
    ensures Inside(r, x, y)
    ensures forall a, b :: Inside(e, a, b) ==> Inside(r, a, b)
  {
    (if e.0 <= x then e.0 else x, if e.1 <= y then e.1 else y,
     if e.2 >= x then e.2 else x, if e.3 >= y then e.3 else y)
  }

  /**
   * The second pass at (x, y): a labelled cell grows the box of its label's
   * root, inserting `(x, y, x, y)` for a root seen first. `ok` is false when
   * the label is no element of the union-find, where `find` indexes past
   * `parent` and the source panics.
   */
  method BoxPixel(uf: UnionFind, ghost g: Grid, labels: seq<seq<nat>>, boxes: map<nat, Box>, ghost next: nat, x: nat, y: nat)
    returns (ok: bool, boxes2: map<nat, Box>)
    requires uf.Valid() && Wf(g) && LabelsWf(labels, g.width, g.height) && x < g.width && y < g.height
    requires Labelled(g, labels, 0, g.height, next) && Boxed(g, labels, uf.root, boxes, x, y)
    modifies uf
    ensures uf.Valid() && uf.root == old(uf.root) && |uf.parent| == old(|uf.parent|)
    ensures ok <==> labels[y][x] == 0 || labels[y][x] < |uf.parent|
    ensures ok ==> Boxed(g, labels, uf.root, boxes2, x + 1, y)
  {
    var lab := labels[y][x];
    if lab == 0 {
      forall k | k in boxes
        ensures TightBox(g, labels, uf.root, k, boxes[k], x + 1, y)
      {
        TightLater(g, labels, uf.root, k, boxes[k], x, y, x + 1, y);
      }
      CoveredSkip(g, labels, uf.root, boxes, x, y);
      return true, boxes;
    }
    if lab >= |uf.parent| {
      return false, boxes;
    }
    var r := uf.Find(lab);
    assert InRegion(g, labels, uf.root, r, x, y);
    var entry := if r in boxes then Grow(boxes[r], x, y) else (x, y, x, y);
    CoveredGrow(g, labels, uf.root, boxes, x, y, entry);
    boxes2 := boxes[r := entry];
    ok := true;
    forall k | k in boxes2
      ensures TightBox(g, labels, uf.root, k, boxes2[k], x + 1, y)
    {
      if k != r {
        TightLater(g, labels, uf.root, k, boxes[k], x, y, x + 1, y);
      } else if r in boxes {
        TightGrow(g, labels, uf.root, k, boxes[r], x, y);
      } else {
        TightFirst(g, labels, uf.root, k, x, y);
      }
    }
  }

  /** Every label is 0 or an element of a union-find of `size` elements. */
  predicate LabelsBelow(labels: seq<seq<nat>>, w: nat, h: nat, size: nat)
    requires LabelsWf(labels, w, h)
  {
    forall a, b :: 0 <= a < w && 0 <= b < h ==> labels[b][a] == 0 || labels[b][a] < size
  }

  /** Every label before (x, y) is 0 or an element of a union-find of `size` elements. */
  predicate BelowUpTo(labels: seq<seq<nat>>, w: nat, h: nat, size: nat, x: int, y: int)
    requires LabelsWf(labels, w, h)
  {
    forall a, b :: 0 <= a < w && 0 <= b < h && Earlier(a, b, x, y) ==> labels[b][a] == 0 || labels[b][a] < size
  }

  lemma BelowStep(labels: seq<seq<nat>>, w: nat, h: nat, size: nat, x: nat, y: nat)
    requires LabelsWf(labels, w, h) && x < w && y < h
    requires BelowUpTo(labels, w, h, size, x, y) && (labels[y][x] == 0 || labels[y][x] < size)
    ensures BelowUpTo(labels, w, h, size, x + 1, y)
  {
  }

  lemma BelowRow(labels: seq<seq<nat>>, w: nat, h: nat, size: nat, y: nat)
    requires LabelsWf(labels, w, h)
    requires BelowUpTo(labels, w, h, size, w, y)
    ensures BelowUpTo(labels, w, h, size, 0, y + 1)
    ensures y + 1 >= h ==> LabelsBelow(labels, w, h, size)
  {
    forall a, b | 0 <= a < w && 0 <= b < h
      ensures Earlier(a, b, w, y) == Earlier(a, b, 0, y + 1)
    {
    }
  }

  /**
   * The second pass: the tight box of every root, holding every black cell
   * of it; `ok` is false when some label is no element of the union-find.
   */
  method SecondPass(uf: UnionFind, ghost g: Grid, w: nat, h: nat, labels: seq<seq<nat>>, ghost next: nat) returns (ok: bool, boxes: map<nat, Box>)
    requires uf.Valid() && Wf(g) && g.width == w && g.height == h && LabelsWf(labels, g.width, g.height) && Labelled(g, labels, 0, g.height, next)
    modifies uf
    ensures uf.Valid() && uf.root == old(uf.root) && |uf.parent| == old(|uf.parent|)
    ensures ok <==> LabelsBelow(labels, g.width, g.height, |uf.parent|)
    ensures ok ==> Boxed(g, labels, uf.root, boxes, 0, g.height)
  {
    boxes := map[];
    ok := true;
    for y := 0 to h
      invariant uf.Valid() && uf.root == old(uf.root) && |uf.parent| == old(|uf.parent|)
      invariant Boxed(g, labels, uf.root, boxes, 0, y)
      invariant BelowUpTo(labels, w, h, |uf.parent|, 0, y)
    {
      ok, boxes := BoxRow(uf, g, labels, boxes, next, y);
      if !ok {
        return;
      }
    }
  }

  /**
   * Row `y` of the second pass: `ok` is false when a label of the row is no
   * element of the union-find; otherwise the boxes hold every cell up to
   * the next row.
   */
  method BoxRow(uf: UnionFind, ghost g: Grid, labels: seq<seq<nat>>, boxes: map<nat, Box>, ghost next: nat, y: nat)
    returns (ok: bool, boxes2: map<nat, Box>)
    requires uf.Valid() && Wf(g) && LabelsWf(labels, g.width, g.height) && y < g.height
    requires Labelled(g, labels, 0, g.height, next) && Boxed(g, labels, uf.root, boxes, 0, y)
    requires BelowUpTo(labels, g.width, g.height, |uf.parent|, 0, y)
    modifies uf
    ensures uf.Valid() && uf.root == old(uf.root) && |uf.parent| == old(|uf.parent|)
    ensures ok <==> BelowUpTo(labels, g.width, g.height, |uf.parent|, 0, y + 1)
    ensures ok ==> Boxed(g, labels, uf.root, boxes2, 0, y + 1)
    ensures y + 1 >= g.height && ok ==> LabelsBelow(labels, g.width, g.height, |uf.parent|)
  {
    var w, h := |labels[y]|, |labels|;
    boxes2 := boxes;
    for x := 0 to w
      invariant uf.Valid() && uf.root == old(uf.root) && |uf.parent| == old(|uf.parent|)
      invariant Boxed(g, labels, uf.root, boxes2, x, y)
      invariant BelowUpTo(labels, w, h, |uf.parent|, x, y)
    {
      var cellOk;
      cellOk, boxes2 := BoxPixel(uf, g, labels, boxes2, next, x, y);
      if !cellOk {
        assert !BelowUpTo(labels, w, h, |uf.parent|, 0, y + 1) by {
          assert Earlier(x, y, 0, y + 1);
        }
        return false, boxes2;
      }
      BelowStep(labels, w, h, |uf.parent|, x, y);
    }
    BoxedRowDone(g, labels, uf.root, boxes2, y);
    BelowRow(labels, w, h, |uf.parent|, y);
    ok := true;
  }

  /** Adjacent black cells of a fully joined grid share a root. */
  lemma AdjacentSameRoot(g: Grid, labels: seq<seq<nat>>, root: seq<nat>, p: Point, q: Point)
    requires Wf(g) && LabelsWf(labels, g.width, g.height) && Joined(g, labels, root, 0, g.height)
    requires Black(g, p) && Black(g, q) && Adjacent(p, q)
    ensures Rep(root, labels[p.1][p.0]) == Rep(root, labels[q.1][q.0])
  {
    if Earlier(p.0, p.1, q.0, q.1) {
      assert Earlier(q.0, q.1, 0, g.height) && JoinedAt(g, labels, root, q.0, q.1);
    } else if p != q {
      assert Earlier(p.0, p.1, 0, g.height) && JoinedAt(g, labels, root, p.0, p.1);
    }
  }

  /** The ends of a chain of black cells share a root. */
  lemma {:induction false} ChainSameRoot(g: Grid, labels: seq<seq<nat>>, root: seq<nat>, path: seq<Point>)
    requires Wf(g) && LabelsWf(labels, g.width, g.height) && Joined(g, labels, root, 0, g.height)
    requires |path| > 0 && Chain(g, path)
    ensures Rep(root, labels[path[0].1][path[0].0]) == Rep(root, labels[path[|path| - 1].1][path[|path| - 1].0])
    decreases |path|
  {
    var n := |path|;
    if n > 1 {
      var front := path[..n - 1];
      assert Chain(g, front) by {
        forall i | 0 < i < |front|
          ensures Adjacent(front[i - 1], front[i])
        {
          assert front[i - 1] == path[i - 1] && front[i] == path[i];
        }
      }
      ChainSameRoot(g, labels, root, front);
      assert Black(g, path[n - 2]) && Black(g, path[n - 1]) && Adjacent(path[n - 2], path[n - 1]);
      AdjacentSameRoot(g, labels, root, path[n - 2], path[n - 1]);
    }
  }

  /** If (a, b) and (c, d) are black cells, they share a root exactly when a chain of black cells joins them. */
  ghost predicate SameComponent(g: Grid, labels: seq<seq<nat>>, root: seq<nat>, a: int, b: int, c: int, d: int)
    requires Wf(g) && LabelsWf(labels, g.width, g.height)
  {
    (0 <= a < g.width && 0 <= b < g.height && 0 <= c < g.width && 0 <= d < g.height &&
     Cell(g, a, b) && Cell(g, c, d))
    ==> (Rep(root, labels[b][a]) == Rep(root, labels[d][c]) <==> Connected(g, (a, b), (c, d)))
  }

  /**
   * The regions are exactly the 8-connected components of the black cells:
   * two black cells share a root if and only if a chain of black cells,
   * each an 8-neighbour of the next, joins them.
   */
  ghost predicate Components(g: Grid, labels: seq<seq<nat>>, root: seq<nat>)
    requires Wf(g) && LabelsWf(labels, g.width, g.height)
  {
    forall a, b, c, d {:trigger SameComponent(g, labels, root, a, b, c, d)} :: SameComponent(g, labels, root, a, b, c, d)
  }

  /**
   * Both passes' facts together: joined neighbours give one root along
   * every chain, and connected classes give a chain within every root.
   */
  lemma ComponentsExact(g: Grid, labels: seq<seq<nat>>, root: seq<nat>)
    requires Wf(g) && LabelsWf(labels, g.width, g.height)
    requires Joined(g, labels, root, 0, g.height) && ClassesConnected(g, labels, root, 0, g.height)
    ensures Components(g, labels, root)
  {
    forall a, b, c, d
      ensures SameComponent(g, labels, root, a, b, c, d)
    {
      if 0 <= a < g.width && 0 <= b < g.height && 0 <= c < g.width && 0 <= d < g.height && Cell(g, a, b) && Cell(g, c, d) {
        assert Earlier(a, b, 0, g.height) && Earlier(c, d, 0, g.height);
        assert Reaches(g, labels, root, a, b, c, d);
        if Connected(g, (a, b), (c, d)) {
          var path :| Walk(g, path, (a, b), (c, d));
          ChainSameRoot(g, labels, root, path);
        }
      }
    }
  }

  /**
   * A cell of the region of `k1` and a cell of the region of `k2` lie in one
   * 8-connected component exactly when `k1 == k2`: distinct boxes come from
   * components with no chain of black cells between them.
   */
  lemma RegionsApart(g: Grid, labels: seq<seq<nat>>, root: seq<nat>, k1: nat, k2: nat, a: nat, b: nat, c: nat, d: nat)
    requires Wf(g) && LabelsWf(labels, g.width, g.height) && Components(g, labels, root)
    requires InRegion(g, labels, root, k1, a, b) && InRegion(g, labels, root, k2, c, d)
    ensures Connected(g, (a, b), (c, d)) <==> k1 == k2
  {
    assert SameComponent(g, labels, root, a, b, c, d);
  }

  /** `regions` lists the box of every key of `boxes` once, in the order `keys` gives. */
  ghost predicate Collected(boxes: map<nat, Box>, regions: seq<Box>, keys: seq<nat>)
  {
    && |keys| == |regions| == |boxes|
    && (forall i :: 0 <= i < |keys| ==> keys[i] in boxes && regions[i] == boxes[keys[i]])
    && (forall k :: k in boxes ==> k in keys)
  }

  /** `bboxes.values().cloned().collect()`: the boxes in some order of their keys. */
  method Values(boxes: map<nat, Box>) returns (regions: seq<Box>, ghost keys: seq<nat>)
    ensures Collected(boxes, regions, keys)
  {
    regions := [];
    keys := [];
    var rest := boxes.Keys;
    while rest != {}
      invariant rest <= boxes.Keys
      invariant |keys| == |regions| && |keys| + |rest| == |boxes.Keys|
      invariant forall i :: 0 <= i < |keys| ==> keys[i] in boxes && keys[i] !in rest && regions[i] == boxes[keys[i]]
      invariant forall k :: k in boxes && k !in rest ==> k in keys
      decreases |rest|
    {
      var k :| k in rest;
      regions := regions + [boxes[k]];
      keys := keys + [k];
      rest := rest - {k};
    }
  }

  /**
   * The collected boxes of a finished second pass lie inside the image, and
   * there are none exactly when no cell is black.
   */
  lemma RegionsShape(g: Grid, labels: seq<seq<nat>>, root: seq<nat>, boxes: map<nat, Box>, regions: seq<Box>, keys: seq<nat>)
    requires Wf(g) && LabelsWf(labels, g.width, g.height)
    requires Boxed(g, labels, root, boxes, 0, g.height) && Collected(boxes, regions, keys)
    ensures forall r :: r in regions ==> r.0 <= r.2 < g.width && r.1 <= r.3 < g.height
    ensures regions == [] <==> forall a, b :: 0 <= a < g.width && 0 <= b < g.height ==> !Cell(g, a, b)
  {
    forall r | r in regions ensures r.0 <= r.2 < g.width && r.1 <= r.3 < g.height {
      var i :| 0 <= i < |regions| && regions[i] == r;
      assert TightBox(g, labels, root, keys[i], boxes[keys[i]], 0, g.height);
    }
    if regions == [] {
      forall a, b | 0 <= a < g.width && 0 <= b < g.height ensures !Cell(g, a, b) {
        assert Earlier(a, b, 0, g.height);
      }
    } else {
      var k := keys[0];
      assert TightBox(g, labels, root, k, boxes[k], 0, g.height);
      var b :| 0 <= b < g.height && Earlier(boxes[k].0, b, 0, g.height) && InRegion(g, labels, root, k, boxes[k].0, b);
      assert Cell(g, boxes[k].0, b);
    }
  }

  /**
   * `find_black_regions` over a union-find of `capacity` elements (the
   * source uses `width * height`): every black cell, and no other, gets a
   * label of at most `width * height`; two black cells share a root
   * exactly when a chain of black 8-neighbours joins them; `ok` (no panic)
   * exactly when all labels are elements of the union-find, and then the
   * regions are the tight boxes of the roots' cells.
   */
  method FindBlackRegionsWith(matrix: BitMatrix, capacity: nat)
    returns (ok: bool, regions: seq<Box>, ghost labels: seq<seq<nat>>, ghost root: seq<nat>, ghost boxes: map<nat, Box>, ghost keys: seq<nat>)
    requires matrix.Valid() && matrix.width * matrix.height <= capacity
    ensures LabelsWf(labels, matrix.width, matrix.height)
    ensures Labelled(matrix.grid, labels, 0, matrix.height, matrix.width * matrix.height + 1)
    ensures ok <==> LabelsBelow(labels, matrix.width, matrix.height, capacity)
    ensures Joined(matrix.grid, labels, root, 0, matrix.height)
    ensures Components(matrix.grid, labels, root)
    ensures ok ==> Boxed(matrix.grid, labels, root, boxes, 0, matrix.height) && Collected(boxes, regions, keys)
    ensures ok ==> forall r :: r in regions ==> r.0 <= r.2 < matrix.width && r.1 <= r.3 < matrix.height
    ensures ok ==> (regions == [] <==> forall a, b :: 0 <= a < matrix.width && 0 <= b < matrix.height ==> !Cell(matrix.grid, a, b))
  {
    var uf := new UnionFind(capacity);
    var lab, next := FirstPass(matrix, uf);
    labels := lab;
    var found;
    ok, found := SecondPass(uf, matrix.grid, matrix.width, matrix.height, lab, next);
    root := uf.root;
    boxes := found;
    ComponentsExact(matrix.grid, labels, root);
    if ok {
      regions, keys := Values(found);
      RegionsShape(matrix.grid, labels, root, boxes, regions, keys);
    } else {
      regions := [];
      keys := [];
    }
  }

  /** `find_black_regions` as written: a union-find of `width * height` elements. */
  method FindBlackRegionsAsWritten(matrix: BitMatrix)
    returns (ok: bool, regions: seq<Box>, ghost labels: seq<seq<nat>>, ghost root: seq<nat>, ghost boxes: map<nat, Box>, ghost keys: seq<nat>)
    requires matrix.Valid()
    ensures LabelsWf(labels, matrix.width, matrix.height)
    ensures Labelled(matrix.grid, labels, 0, matrix.height, matrix.width * matrix.height + 1)
    ensures ok <==> LabelsBelow(labels, matrix.width, matrix.height, matrix.width * matrix.height)
  {
    ok, regions, labels, root, boxes, keys := FindBlackRegionsWith(matrix, matrix.width * matrix.height);
  }

  /**
   * As written, a 1 by 1 black matrix hands out label 1, and the second
   * pass looks it up in a union-find of one element: `parent[1]` is out of
   * range.
   */
  method OneBlackCellAsWritten() returns (ok: bool)
    ensures !ok
  {
    var matrix := new BitMatrix(1, 1);
    matrix.Set(0, 0, true);
    assert Cell(matrix.grid, 0, 0);
    var regions;
    ghost var labels, root, boxes, keys;
    ok, regions, labels, root, boxes, keys := FindBlackRegionsAsWritten(matrix);
    assert labels[0][0] != 0;
  }

  /**
   * `find_black_regions` with room for the labels it hands out (from 1 to
   * `width * height`, so `width * height + 1` elements): it never panics,
   * labels exactly the black cells, gives two black cells one root exactly
   * when they lie in one 8-connected component, and returns each root's
   * tight box.
   */
  method FindBlackRegions(matrix: BitMatrix)
    returns (regions: seq<Box>, ghost labels: seq<seq<nat>>, ghost root: seq<nat>, ghost boxes: map<nat, Box>, ghost keys: seq<nat>)
    requires matrix.Valid()
    ensures LabelsWf(labels, matrix.width, matrix.height)
    ensures forall a, b :: 0 <= a < matrix.width && 0 <= b < matrix.height ==> (labels[b][a] != 0 <==> Cell(matrix.grid, a, b))
    ensures Joined(matrix.grid, labels, root, 0, matrix.height)
    ensures Components(matrix.grid, labels, root)
    ensures Boxed(matrix.grid, labels, root, boxes, 0, matrix.height) && Collected(boxes, regions, keys)
    ensures forall r :: r in regions ==> r.0 <= r.2 < matrix.width && r.1 <= r.3 < matrix.height
    ensures regions == [] <==> forall a, b :: 0 <= a < matrix.width && 0 <= b < matrix.height ==> !Cell(matrix.grid, a, b)
  {
    var ok;
    ok, regions, labels, root, boxes, keys := FindBlackRegionsWith(matrix, matrix.width * matrix.height + 1);
  }

  /** With room for every label, the 1 by 1 black matrix has the one region (0, 0, 0, 0). */
  lemma OneBlackCell(g: Grid, labels: seq<seq<nat>>, root: seq<nat>, boxes: map<nat, Box>, regions: seq<Box>, keys: seq<nat>)
    requires Wf(g) && g.width == 1 && g.height == 1 && Cell(g, 0, 0) && LabelsWf(labels, 1, 1)
    requires Boxed(g, labels, root, boxes, 0, 1) && Collected(boxes, regions, keys)
    ensures regions == [(0, 0, 0, 0)]
  {
    var k0 := Rep(root, labels[0][0]);
    assert Earlier(0, 0, 0, 1);
    assert k0 in boxes && k0 in keys;
    forall k | k in boxes
      ensures k == k0
    {
      assert TightBox(g, labels, root, k, boxes[k], 0, 1);
      var b :| 0 <= b < 1 && Earlier(boxes[k].0, b, 0, 1) && InRegion(g, labels, root, k, boxes[k].0, b);
      assert boxes[k].0 == 0 && b == 0;
    }
    SingleKey(boxes, regions, keys, k0);
  }

  /** When every key is `k0`, the regions are exactly its box. */
  lemma SingleKey(boxes: map<nat, Box>, regions: seq<Box>, keys: seq<nat>, k0: nat)
    requires Collected(boxes, regions, keys) && k0 in boxes
    requires forall k :: k in boxes ==> k == k0
    ensures regions == [boxes[k0]]
  {
    assert boxes.Keys == {k0};
    assert keys[0] in boxes;
  }

  /** The square's premise: exactly the cells (2..3, 2..3) of a 10 by 10 grid are black, labelled and boxed. */
  ghost predicate SquareScene(g: Grid, labels: seq<seq<nat>>, root: seq<nat>, boxes: map<nat, Box>)
  {
    && Wf(g) && g.width == 10 && g.height == 10 && LabelsWf(labels, 10, 10)
    && (forall a, b :: 0 <= a < 10 && 0 <= b < 10 ==> (Cell(g, a, b) <==> 2 <= a <= 3 && 2 <= b <= 3))
    && Joined(g, labels, root, 0, 10)
    && Boxed(g, labels, root, boxes, 0, 10)
  }

  /** The four black cells of the square share the root of (2, 2). */
  lemma SquareLinked(g: Grid, labels: seq<seq<nat>>, root: seq<nat>, boxes: map<nat, Box>)
    requires SquareScene(g, labels, root, boxes)
    ensures forall a, b :: 2 <= a <= 3 && 2 <= b <= 3 ==> InRegion(g, labels, root, Rep(root, labels[2][2]), a, b)
  {
    assert Earlier(3, 2, 0, 10) && Cell(g, 3, 2) && JoinedAt(g, labels, root, 3, 2);
    assert Linked(g, labels, root, 3, 2, 2, 2);
    assert Earlier(2, 3, 0, 10) && Cell(g, 2, 3) && JoinedAt(g, labels, root, 2, 3);
    assert Linked(g, labels, root, 2, 3, 2, 2);
    assert Earlier(3, 3, 0, 10) && Cell(g, 3, 3) && JoinedAt(g, labels, root, 3, 3);
    assert Linked(g, labels, root, 3, 3, 2, 3);
    assert Cell(g, 2, 2);
  }

  /** Every key of the square's boxes is the root of (2, 2), and that root has a box. */
  lemma SquareKeys(g: Grid, labels: seq<seq<nat>>, root: seq<nat>, boxes: map<nat, Box>)
    requires SquareScene(g, labels, root, boxes)
    ensures Rep(root, labels[2][2]) in boxes
    ensures forall k :: k in boxes ==> k == Rep(root, labels[2][2])
  {
    var k0 := Rep(root, labels[2][2]);
    assert Earlier(2, 2, 0, 10) && Cell(g, 2, 2);
    SquareLinked(g, labels, root, boxes);
    forall k | k in boxes
      ensures k == k0
    {
      assert TightBox(g, labels, root, k, boxes[k], 0, 10);
      var b :| 0 <= b < 10 && Earlier(boxes[k].0, b, 0, 10) && InRegion(g, labels, root, k, boxes[k].0, b);
      assert 2 <= boxes[k].0 <= 3 && 2 <= b <= 3;
      assert InRegion(g, labels, root, k0, boxes[k].0, b);
    }
  }

  /** A black cell of a fully boxed grid lies in the box of its root. */
  lemma CoveredAt(g: Grid, labels: seq<seq<nat>>, root: seq<nat>, boxes: map<nat, Box>, a: nat, b: nat)
    requires Wf(g) && LabelsWf(labels, g.width, g.height) && a < g.width && b < g.height && Cell(g, a, b)
    requires Covered(g, labels, root, boxes, 0, g.height)
    ensures Rep(root, labels[b][a]) in boxes && Inside(boxes[Rep(root, labels[b][a])], a, b)
  {
    assert Earlier(a, b, 0, g.height);
  }

  /** The box of the square's root is (2, 2, 3, 3). */
  lemma SquareBox(g: Grid, labels: seq<seq<nat>>, root: seq<nat>, boxes: map<nat, Box>)
    requires SquareScene(g, labels, root, boxes)
    requires Rep(root, labels[2][2]) in boxes
    ensures boxes[Rep(root, labels[2][2])] == (2, 2, 3, 3)
  {
    var k0 := Rep(root, labels[2][2]);
    var box := boxes[k0];
    SquareLinked(g, labels, root, boxes);
    CoveredAt(g, labels, root, boxes, 2, 2);
    CoveredAt(g, labels, root, boxes, 3, 3);
    assert Rep(root, labels[3][3]) == k0 by {
      assert InRegion(g, labels, root, k0, 3, 3);
    }
    assert TightBox(g, labels, root, k0, box, 0, 10);
    var b0 :| 0 <= b0 < 10 && Earlier(box.0, b0, 0, 10) && InRegion(g, labels, root, k0, box.0, b0);
    var b2 :| 0 <= b2 < 10 && Earlier(box.2, b2, 0, 10) && InRegion(g, labels, root, k0, box.2, b2);
    var a1 :| 0 <= a1 < 10 && Earlier(a1, box.1, 0, 10) && InRegion(g, labels, root, k0, a1, box.1);
    var a3 :| 0 <= a3 < 10 && Earlier(a3, box.3, 0, 10) && InRegion(g, labels, root, k0, a3, box.3);
  }

  /** The source's sample: a 2 by 2 black square at (2, 2) of a 10 by 10 matrix is the one region (2, 2, 3, 3). */
  lemma SquareSample(g: Grid, labels: seq<seq<nat>>, root: seq<nat>, boxes: map<nat, Box>, regions: seq<Box>, keys: seq<nat>)
    requires SquareScene(g, labels, root, boxes) && Collected(boxes, regions, keys)
    ensures regions == [(2, 2, 3, 3)]
  {
    SquareKeys(g, labels, root, boxes);
    SquareBox(g, labels, root, boxes);
    SingleKey(boxes, regions, keys, Rep(root, labels[2][2]));
  }
}
