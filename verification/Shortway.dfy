/**
  The path finder on linked nodes: a matrix of points around a creature, an
  expand list threaded through the points and predecessor pointers.  Every
  method performs the steps of ShortwayModel on the ghost state `s`, and
  `Calculate` states what a creature gets out of them.
*/
module Shortway {
  import opened Common
  import opened ShortwayModel
  import opened ShortwayProof
  import opened ShortwayTrap
  import opened ShortwayTie

  class Point {
    var x: int
    var y: int
    var waypoints: int
    var waylength: int
    var heuristic: int
    var predecessor: Point?
    var nextToExpand: Point?
    // The coordinate at which the matrix holds this point.
    ghost const at: Pos

    constructor (ghost p: Pos)
      ensures at == p
      ensures x == 0 && y == 0 && waypoints == -1 && waylength == -1 && heuristic == -1
      ensures predecessor == null && nextToExpand == null
    {
      at := p;
      x, y, waypoints, waylength, heuristic := 0, 0, -1, -1, -1;
      predecessor, nextToExpand := null, null;
    }
  }

  predicate IsBlank(node: Point)
    reads node
  {
    && node.x == 0 && node.y == 0 && node.waypoints == -1 && node.waylength == -1 && node.heuristic == -1
    && node.predecessor == null && node.nextToExpand == null
  }

  /** What the map says about a field: nothing lies there, or the first object. */
  datatype Field = NoObject | Field(bank: bool, unpass: bool, waypoints: nat, movePossible: bool)

  /** The cost of a field, -1 if a creature cannot stand on it. */
  function Cost(f: Field): (r: int)
    ensures r == -1 || r > 0
  {
    if f.Field? && f.bank && !f.unpass && f.waypoints != 0 && f.movePossible then f.waypoints else -1
  }

  class Finder {
    const visX: int
    const visY: int
    // The matrix: its points are allocated once and never replaced.
    const points: map<Pos, Point>
    ghost const nodes: set<Point>
    var firstToExpand: Point?
    var minWaypoints: int
    ghost var g: Grid
    ghost var s: Search

    // ------------------------------------------------------- representation

    predicate InMatrix(p: Pos) {
      -(visX + 1) <= p.x <= visX + 1 && -(visY + 1) <= p.y <= visY + 1
    }

    /** One distinct point per coordinate of the window and its border. */
    ghost predicate Matrix() {
      && 1 <= visX && 1 <= visY
      && (forall p :: p in points <==> InMatrix(p))
      && (forall p :: p in points ==> points[p] in nodes && points[p].at == p)
    }

    /** The points hold the costs of the grid. */
    ghost predicate Filled()
      reads this`g, this`minWaypoints, nodes`waypoints, nodes`x, nodes`y
    {
      && Matrix() && ValidGrid(g) && g.waypoints.Keys == points.Keys && g.visX == visX && g.visY == visY && g.min == minWaypoints
      && (forall p :: p in points ==>
            && points[p].waypoints == g.waypoints[p]
            && points[p].x == (if InWindow(g, p) then p.x else 0)
            && points[p].y == (if InWindow(g, p) then p.y else 0))
    }

    /** The lengths of the points are the labels `way`. */
    ghost predicate Measured(way: map<Pos, int>)
      requires Matrix()
      reads nodes`waylength
    {
      forall p :: p in points ==> p in way && points[p].waylength == way[p]
    }

    /** The heuristics of the points are the keys. */
    ghost predicate Keyed(key: map<Pos, int>)
      requires Matrix()
      reads nodes`heuristic
    {
      forall p :: p in points ==> p in key && points[p].heuristic == key[p]
    }

    /** The predecessors of the points are those of `pred`. */
    ghost predicate Threaded(pred: map<Pos, Option<Pos>>)
      requires Matrix()
      reads nodes`predecessor
    {
      forall p :: p in points ==> p in pred && PointsTo(points[p].predecessor, pred[p])
    }

    ghost predicate PointsTo(node: Point?, p: Option<Pos>) {
      if p.None? then node == null else p.value in points && node == points[p.value]
    }

    ghost function NodeAt(open: seq<Pos>, i: nat): Point?
      requires forall j :: 0 <= j < |open| ==> open[j] in points
    {
      if i < |open| then points[open[i]] else null
    }

    /** The expand list runs through the points at `open`. */
    ghost predicate Listed(open: seq<Pos>)
      requires Matrix()
      reads this`firstToExpand, nodes`nextToExpand
    {
      && (forall i :: 0 <= i < |open| ==> open[i] in points)
      && firstToExpand == NodeAt(open, 0)
      && (forall i :: 0 <= i < |open| ==> points[open[i]].nextToExpand == NodeAt(open, i + 1))
    }

    ghost predicate Represents()
      reads this, nodes
    {
      Matrix() && Filled() && Shaped(g, s) && Measured(s.way) && Keyed(s.key) && Threaded(s.pred) && Listed(s.open)
    }

    // ------------------------------------------------------ filling the map

    /** The matrix of a window: a point per coordinate, none of them filled in. */
    constructor (visX: int, visY: int)
      requires 1 <= visX <= 100 && 1 <= visY <= 100
      ensures this.visX == visX && this.visY == visY && Matrix()
      ensures fresh(nodes) && firstToExpand == null
      ensures forall p :: p in points ==> Blank(p)
    {
      var ps: map<Pos, Point> := map[];
      ghost var ns: set<Point> := {};
      for x := -(visX + 1) to visX + 2
        invariant fresh(ns)
        invariant forall p :: p in ps <==> -(visX + 1) <= p.x < x && -(visY + 1) <= p.y <= visY + 1
        invariant forall p :: p in ps ==> ps[p] in ns && ps[p].at == p && IsBlank(ps[p])
      {
        for y := -(visY + 1) to visY + 2
          invariant fresh(ns)
          invariant forall p :: p in ps <==>
            && -(visX + 1) <= p.x <= x && -(visY + 1) <= p.y <= visY + 1
            && (p.x < x || p.y < y)
          invariant forall p :: p in ps ==> ps[p] in ns && ps[p].at == p && IsBlank(ps[p])
        {
          var node := new Point(Pos(x, y));
          ps := ps[Pos(x, y) := node];
          ns := ns + {node};
        }
      }
      this.visX, this.visY := visX, visY;
      points, nodes := ps, ns;
      firstToExpand, minWaypoints := null, 1000;
    }

    ghost predicate Blank(p: Pos)
      requires p in points
      reads points[p]
    {
      IsBlank(points[p])
    }

    predicate Inside(p: Pos) {
      -visX <= p.x <= visX && -visY <= p.y <= visY
    }

    /** The point at `p` holds the cost of a field. */
    ghost predicate Holds(p: Pos, cost: int)
      requires Matrix() && p in points
      reads points[p]
    {
      points[p].x == p.x && points[p].y == p.y && points[p].waypoints == cost
    }

    /** The costs of the fields of the window, as the creature sees them. */
    ghost function Costs(terrain: Pos -> Field): map<Pos, int> {
      map p | p in points :: if Inside(p) then Cost(terrain(p)) else -1
    }

    /** Reads one column of the window. */
    method FillColumn(x: int, terrain: Pos -> Field)
      requires Matrix() && -visX <= x <= visX && 1 <= minWaypoints
      modifies this`minWaypoints, nodes`x, nodes`y, nodes`waypoints
      ensures forall p :: p in points && Inside(p) && p.x == x ==> Holds(p, Cost(terrain(p)))
      ensures forall p :: p in points && !(Inside(p) && p.x == x) ==> Untouched(p)
      ensures 1 <= minWaypoints <= old(minWaypoints)
      ensures forall p :: p in points && Inside(p) && p.x == x ==> Cost(terrain(p)) == -1 || minWaypoints <= Cost(terrain(p))
      ensures minWaypoints == old(minWaypoints) || Attained(terrain, minWaypoints)
    {
      for y := -visY to visY + 1
        invariant forall p :: p in points && Inside(p) && p.x == x && p.y < y ==> Holds(p, Cost(terrain(p)))
        invariant forall p :: p in points && !(Inside(p) && p.x == x) ==> Untouched(p)
        invariant 1 <= minWaypoints <= old(minWaypoints)
        invariant forall p :: p in points && Inside(p) && p.x == x && p.y < y ==>
          Cost(terrain(p)) == -1 || minWaypoints <= Cost(terrain(p))
        invariant minWaypoints == old(minWaypoints) || Attained(terrain, minWaypoints)
      {
        var at := Pos(x, y);
        assert InMatrix(at);
        ReadField(points[at], at, terrain);
      }
    }

    /** Reads one field; its cost may be the smallest one so far. */
    method ReadField(node: Point, at: Pos, terrain: Pos -> Field)
      requires Matrix() && at in points && node == points[at] && Inside(at) && 1 <= minWaypoints
      modifies this`minWaypoints, node`x, node`y, node`waypoints
      ensures Holds(at, Cost(terrain(at)))
      ensures minWaypoints == if 0 < Cost(terrain(at)) < old(minWaypoints) then Cost(terrain(at)) else old(minWaypoints)
      ensures minWaypoints == old(minWaypoints) || Attained(terrain, minWaypoints)
      ensures Cost(terrain(at)) == -1 || minWaypoints <= Cost(terrain(at))
    {
      var field := terrain(at);
      var waypoints := -1;
      if field.Field? && field.bank && !field.unpass {
        waypoints := field.waypoints;
        if waypoints == 0 {
          waypoints := -1;
        }
        if !field.movePossible {
          waypoints := -1;
        }
        if waypoints > 0 && waypoints < minWaypoints {
          minWaypoints := waypoints;
          assert Attained(terrain, minWaypoints) by { assert Inside(at) && Cost(terrain(at)) == minWaypoints; }
        }
      }
      node.x := at.x;
      node.y := at.y;
      node.waypoints := waypoints;
    }

    ghost predicate Attained(terrain: Pos -> Field, cost: int) {
      exists p :: Inside(p) && Cost(terrain(p)) == cost
    }

    twostate predicate Untouched(p: Pos)
      requires Matrix() && p in points
      reads points[p]
    {
      && points[p].x == old(points[p].x)
      && points[p].y == old(points[p].y)
      && points[p].waypoints == old(points[p].waypoints)
    }

    /** Reads the window and finds its smallest cost, or 1000 if all are larger. */
    method FillMap(terrain: Pos -> Field)
      requires Matrix()
      requires forall p :: p in points && !Inside(p) ==> Blank(p)
      modifies this`minWaypoints, nodes`x, nodes`y, nodes`waypoints
      ensures forall p :: p in points && Inside(p) ==> Holds(p, Cost(terrain(p)))
      ensures forall p :: p in points && Inside(p) ==>
        var f, cost := terrain(p), points[p].waypoints;
        && (cost == -1 <==> f.NoObject? || !f.bank || f.unpass || !f.movePossible || f.waypoints == 0)
        && (cost != -1 ==> cost == f.waypoints)
      ensures forall p :: p in points && !Inside(p) ==> Untouched(p)
      ensures 1 <= minWaypoints <= 1000
      ensures forall p :: p in points && Inside(p) ==> Cost(terrain(p)) == -1 || minWaypoints <= Cost(terrain(p))
      ensures minWaypoints == 1000 || Attained(terrain, minWaypoints)
    {
      minWaypoints := 1000;
      for x := -visX to visX + 1
        invariant forall p :: p in points && Inside(p) && p.x < x ==> Holds(p, Cost(terrain(p)))
        invariant forall p :: p in points && !Inside(p) ==> Untouched(p)
        invariant 1 <= minWaypoints <= 1000
        invariant forall p :: p in points && Inside(p) && p.x < x ==>
          Cost(terrain(p)) == -1 || minWaypoints <= Cost(terrain(p))
        invariant minWaypoints == 1000 || Attained(terrain, minWaypoints)
      {
        FillColumn(x, terrain);
      }
    }

    /** Makes the filled matrix a grid to search on. */
    ghost method Adopt(terrain: Pos -> Field, max: int)
      requires Matrix() && visX <= 100 && visY <= 100 && 1 <= minWaypoints <= 1000 <= max
      requires forall p :: p in points && Inside(p) ==> Holds(p, Cost(terrain(p)))
      requires forall p :: p in points && Inside(p) ==>
        Cost(terrain(p)) == -1 || minWaypoints <= Cost(terrain(p)) <= max
      requires forall p :: p in points && !Inside(p) ==>
        points[p].x == 0 && points[p].y == 0 && points[p].waypoints == -1
      requires forall p :: p in points ==> points[p].predecessor == null
      requires firstToExpand == null
      requires 3 * max * ((2 * visX + 1) * (2 * visY + 1) + visX + visY) < INT_MAX
      modifies this`g, this`s
      ensures Represents() && g.waypoints == Costs(terrain) && g.max == max
    {
      hide ValidGrid, Measured, Keyed, Threaded, Listed, Shaped;
      AdoptedGrid(terrain, minWaypoints, max);
      g := Grid(visX, visY, Costs(terrain), minWaypoints, max);
      assert g.waypoints.Keys == points.Keys;
      s := BlankSearch();
    }

    /** The labels of a matrix whose expand list is empty. */
    ghost function BlankSearch(): (r: Search)
      requires Matrix() && firstToExpand == null && forall p :: p in points ==> points[p].predecessor == null
      reads this`firstToExpand, nodes
      ensures r.open == [] && Measured(r.way) && Keyed(r.key) && Threaded(r.pred) && Listed(r.open)
      ensures forall g: Grid :: g.waypoints.Keys == points.Keys ==> Shaped(g, r)
    {
      Search(
        map p | p in points :: points[p].waylength,
        map p | p in points :: points[p].heuristic,
        map p | p in points :: None,
        [])
    }

    lemma AdoptedGrid(terrain: Pos -> Field, min: int, max: int)
      requires Matrix() && visX <= 100 && visY <= 100 && 1 <= min <= 1000 <= max
      requires forall p :: p in points && Inside(p) ==> Cost(terrain(p)) == -1 || min <= Cost(terrain(p)) <= max
      requires 3 * max * ((2 * visX + 1) * (2 * visY + 1) + visX + visY) < INT_MAX
      ensures ValidGrid(Grid(visX, visY, Costs(terrain), min, max))
    {
      hide FitsInt;
      var g := Grid(visX, visY, Costs(terrain), min, max);
      assert forall p :: InMap(g, p) <==> InMatrix(p);
      WindowSize(g);
      SmallCostsFit(g);
    }

    /** A path finder for the fields around a creature. */
    static method Create(visX: int, visY: int, terrain: Pos -> Field, ghost max: int) returns (f: Finder)
      requires 1 <= visX <= 100 && 1 <= visY <= 100 && 1000 <= max
      requires forall p: Pos :: -visX <= p.x <= visX && -visY <= p.y <= visY ==> Cost(terrain(p)) <= max
      requires 3 * max * ((2 * visX + 1) * (2 * visY + 1) + visX + visY) < INT_MAX
      ensures fresh(f) && fresh(f.nodes) && f.Represents()
      ensures f.visX == visX && f.visY == visY && f.g.waypoints == f.Costs(terrain)
      ensures f.g.min == 1000 || f.Attained(terrain, f.g.min)
    {
      f := new Finder(visX, visY);
      f.FillMap(terrain);
      f.Adopt(terrain, max);
    }

    // --------------------------------------------------- the expand list

    /** The `i`-th point of the list and the one in front of it. */
    ghost predicate Cursor(open: seq<Pos>, i: nat, prev: Point?, cur: Point?)
      requires forall j :: 0 <= j < |open| ==> open[j] in points
    {
      i <= |open| && cur == NodeAt(open, i) && prev == if i == 0 then null else NodeAt(open, i - 1)
    }

    /** Walks along the list to the point at `m`, or to its end. */
    method Locate(m: Pos, ghost open: seq<Pos>) returns (prev: Point?, cur: Point?, ghost i: nat)
      requires Matrix() && m in points && Listed(open)
      ensures Cursor(open, i, prev, cur) && m !in open[..i]
      ensures cur == null || cur == points[m]
    {
      prev := null;
      cur := firstToExpand;
      i := 0;
      while cur != null && cur != points[m]
        invariant Cursor(open, i, prev, cur) && m !in open[..i]
        decreases |open| - i
      {
        assert open[..i + 1] == open[..i] + [open[i]];
        prev := cur;
        cur := cur.nextToExpand;
        i := i + 1;
      }
    }

    /** Unlinks the point at `m` from the expand list, if it is there. */
    method Unlink(m: Pos, ghost open: seq<Pos>) returns (found: bool)
      requires Matrix() && m in points && Distinct(open) && Listed(open)
      modifies this`firstToExpand, nodes`nextToExpand
      ensures Listed(Remove(open, m))
      ensures found <==> m in open
    {
      hide Distinct, Remove;
      var prev, cur;
      ghost var i: nat;
      prev, cur, i := Locate(m, open);
      RemoveAt(open, m, i);
      found := cur == points[m];
      if !found {
        assert open[..i] == open;
        // The server logs an error here; callers prove that it cannot happen.
      } else {
        assert open[i] == m && open[i] in open;
        Bypass(prev, points[m], open, i);
      }
    }

    /** The links of `open`, except that the one of point `k` leads to `target`. */
    ghost predicate Relinked(open: seq<Pos>, k: int, target: Point?)
      requires Matrix() && forall j :: 0 <= j < |open| ==> open[j] in points
      reads this`firstToExpand, nodes`nextToExpand
    {
      && firstToExpand == (if k < 0 then target else NodeAt(open, 0))
      && (forall j :: 0 <= j < |open| ==>
            points[open[j]].nextToExpand == if j == k then target else NodeAt(open, j + 1))
    }

    /** Sets the link that leads to the `i`-th point. */
    method Relink(prev: Point?, target: Point?, ghost open: seq<Pos>, ghost i: nat)
      requires Matrix() && Distinct(open) && Listed(open) && i <= |open|
      requires prev == if i == 0 then null else NodeAt(open, i - 1)
      modifies this`firstToExpand, nodes`nextToExpand
      ensures Relinked(open, i - 1, target)
      ensures forall p :: p in points && p !in open ==> points[p].nextToExpand == old(points[p].nextToExpand)
    {
      if prev == null {
        firstToExpand := target;
      } else {
        prev.nextToExpand := target;
      }
    }

    lemma CutList(open: seq<Pos>, i: nat)
      requires Matrix() && i < |open| && forall j :: 0 <= j < |open| ==> open[j] in points
      requires Relinked(open, i - 1, NodeAt(open, i + 1))
      ensures Listed(open[..i] + open[i + 1..])
    {
      hide Matrix;
      var r := open[..i] + open[i + 1..];
      forall j | 0 <= j < |r| ensures r[j] in points && points[r[j]].nextToExpand == NodeAt(r, j + 1) {
        var k := if j < i then j else j + 1;
        assert r[j] == open[k];
      }
    }

    lemma GrowList(open: seq<Pos>, i: nat, m: Pos)
      requires Matrix() && i <= |open| && m in points && forall j :: 0 <= j < |open| ==> open[j] in points
      requires Relinked(open, i - 1, points[m]) && points[m].nextToExpand == NodeAt(open, i)
      ensures Listed(open[..i] + [m] + open[i..])
    {
      hide Matrix;
      var r := open[..i] + [m] + open[i..];
      forall j | 0 <= j < |r| ensures r[j] in points && points[r[j]].nextToExpand == NodeAt(r, j + 1) {
        if j != i {
          assert r[j] == open[if j < i then j else j - 1];
        }
      }
    }

    /** Makes the list skip its `i`-th point. */
    method Bypass(prev: Point?, neighbor: Point, ghost open: seq<Pos>, ghost i: nat)
      requires Matrix() && Distinct(open) && Listed(open) && i < |open|
      requires Cursor(open, i, prev, neighbor)
      modifies this`firstToExpand, nodes`nextToExpand
      ensures Listed(open[..i] + open[i + 1..])
    {
      Relink(prev, neighbor.nextToExpand, open, i);
      CutList(open, i);
    }

    /** Links the point at `m` in front of the first one whose key is not smaller. */
    method Link(m: Pos, ghost open: seq<Pos>, ghost key: map<Pos, int>)
      requires Matrix() && m in points && Distinct(open) && m !in open && Listed(open)
      requires Keyed(key)
      modifies this`firstToExpand, nodes`nextToExpand
      ensures Listed(Insert(open, key, m))
    {
      hide Distinct;
      var neighbor := points[m];
      var prev: Point? := null;
      var cur := firstToExpand;
      ghost var i: nat := 0;
      while cur != null && cur.heuristic < neighbor.heuristic
        invariant Cursor(open, i, prev, cur)
        invariant forall j :: 0 <= j < i ==> key[open[j]] < key[m]
        decreases |open| - i
      {
        prev := cur;
        cur := cur.nextToExpand;
        i := i + 1;
      }
      InsertAt(open, key, m, i);
      Splice(prev, cur, m, open, i);
    }

    /** Makes the point at `m` the `i`-th of the list. */
    method Splice(prev: Point?, cur: Point?, m: Pos, ghost open: seq<Pos>, ghost i: nat)
      requires Matrix() && Distinct(open) && Listed(open) && m in points && m !in open
      requires Cursor(open, i, prev, cur)
      modifies this`firstToExpand, nodes`nextToExpand
      ensures Listed(open[..i] + [m] + open[i..])
    {
      Relink(prev, points[m], open, i);
      points[m].nextToExpand := cur;
      GrowList(open, i, m);
    }

    // ------------------------------------------------------------ expansion

    /** Gives the point at `m` the key of its new label and moves it to its place. */
    method Reinsert(m: Pos, ghost s0: Search)
      requires Matrix() && Filled() && m in points && InWindow(g, m) && m != ORIGIN
      requires Keyed(s0.key) && Listed(s0.open) && Distinct(s0.open)
      requires forall i :: 0 <= i < |Without(s0, m)| ==> Without(s0, m)[i] in points
      requires m !in Without(s0, m) && Distinct(Without(s0, m))
      requires s0.key[m] != INT_MAX ==> m in s0.open
      modifies this`firstToExpand, nodes`heuristic, nodes`nextToExpand
      ensures var key := s0.key[m := points[m].waylength + Estimate(g, m)];
        Keyed(key) && Listed(Insert(Without(s0, m), key, m))
    {
      hide *;
      KeyOf(m, s0.key);
      WithoutIs(s0, m);
      if points[m].heuristic != INT_MAX {
        var found := Unlink(m, s0.open);
        assert found;
      }
      SetKey(m, s0.key);
      Link(m, Without(s0, m), s0.key[m := points[m].waylength + Estimate(g, m)]);
    }

    lemma KeyOf(m: Pos, key: map<Pos, int>)
      requires Matrix() && Filled() && Keyed(key) && m in points
      ensures m in key && points[m].heuristic == key[m] && m in g.waypoints
    {
    }

    /** Computes the key of the point at `m` from its label. */
    method SetKey(m: Pos, ghost key: map<Pos, int>)
      requires Matrix() && Filled() && m in points && InWindow(g, m) && Keyed(key)
      modifies nodes`heuristic
      ensures Keyed(key[m := points[m].waylength + Estimate(g, m)])
    {
      hide ValidGrid;
      var neighbor := points[m];
      var distance := Abs(neighbor.x) + Abs(neighbor.y);
      neighbor.heuristic := neighbor.waylength + neighbor.waypoints * 1 + minWaypoints * (distance - 1);
    }

    /** Gives the point at `m` a new label, reached from the point at `q`. */
    method Relabel(m: Pos, q: Pos, length: int, ghost way: map<Pos, int>, ghost pred: map<Pos, Option<Pos>>)
      requires Matrix() && m in points && q in points && Measured(way) && Threaded(pred)
      modifies nodes`waylength, nodes`predecessor
      ensures Measured(way[m := length]) && Threaded(pred[m := Some(q)])
      ensures points[m].waylength == length
    {
      points[m].waylength := length;
      points[m].predecessor := points[q];
    }

    /** The length of the way from `m` over `q`, and whether `m` joins the expand
        list when that length becomes its label. */
    method Probe(q: Pos, m: Pos, minNeighborWaylength: int)
      returns (neighborWaylength: int, waylength: int, joins: bool)
      requires Matrix() && Filled() && q in points && m in points && Measured(s.way) && InWindow(g, q)
      requires minNeighborWaylength == s.way[q] + g.waypoints[q]
      ensures neighborWaylength == s.way[q] + StepCost(g, m, q)
      ensures waylength == s.way[m]
      ensures joins <==> m != ORIGIN && g.waypoints[m] != -1
      ensures joins ==> InWindow(g, m)
    {
      hide FitsInt;
      var neighbor := points[m];
      neighborWaylength := minNeighborWaylength;
      if q.x != m.x && q.y != m.y {
        neighborWaylength := neighborWaylength + points[q].waypoints * 2;
      }
      waylength := neighbor.waylength;
      joins := (neighbor.x != 0 || neighbor.y != 0) && neighbor.waypoints != -1;
    }

    /** Relaxes the neighbour at `m` of the point at `q`. */
    method RelaxNeighbor(q: Pos, m: Pos, minNeighborWaylength: int, ghost dest: Pos, ghost closed: set<Pos>)
      requires Matrix() && Filled() && Shaped(g, s) && Measured(s.way) && Keyed(s.key) && Threaded(s.pred) && Listed(s.open)
      requires ValidGrid(g) && g.waypoints.Keys == points.Keys
      requires Expanding(g, dest, s, closed, q) && m in points && Adjacent(m, q)
      requires q in points && InWindow(g, q)
      requires minNeighborWaylength == s.way[q] + g.waypoints[q]
      modifies this`firstToExpand, this`s, nodes`waylength, nodes`heuristic,
               nodes`predecessor, nodes`nextToExpand
      ensures Matrix() && Filled() && Shaped(g, s) && Measured(s.way) && Keyed(s.key) && Threaded(s.pred) && Listed(s.open)
      ensures s == Relax(g, old(s), q, m)
    {
      hide *;
      RelaxPlan(g, dest, s, closed, q, m);
      var neighborWaylength, waylength, joins := Probe(q, m, minNeighborWaylength);
      if neighborWaylength < waylength {
        ghost var r := Relax(g, s, q, m);
        Relabel(m, q, neighborWaylength, s.way, s.pred);
        if joins {
          Reinsert(m, s);
        }
        s := r;
      }
    }

    /** Relaxes all neighbours of the point at `q`. */
    method RelaxNeighbors(q: Pos, minNeighborWaylength: int, ghost dest: Pos, ghost closed: set<Pos>)
      requires ValidGrid(g) && Shaped(g, s) && q in g.waypoints && q in s.way
      requires forall m :: m in Neighbors(q) ==> m in g.waypoints
      requires minNeighborWaylength == s.way[q] + g.waypoints[q]
      requires Matrix() && Filled() && Measured(s.way) && Keyed(s.key) && Threaded(s.pred) && Listed(s.open)
      requires Expanding(g, dest, s, closed, q) && q in points && InWindow(g, q) && g.waypoints.Keys == points.Keys
      modifies this`firstToExpand, this`s, nodes`waylength, nodes`heuristic,
               nodes`predecessor, nodes`nextToExpand
      ensures s == RelaxAll(g, old(s), q, Neighbors(q))
      ensures Matrix() && Filled() && Shaped(g, s) && Measured(s.way) && Keyed(s.key) && Threaded(s.pred) && Listed(s.open)
    {
      hide *;
      ghost var ns := Neighbors(q);
      assert ns[0..] == ns;
      RankSteps(q, -1, -1);
      for offsetX := -1 to 2
        invariant Matrix() && Filled() && Shaped(g, s) && Measured(s.way) && Keyed(s.key) && Threaded(s.pred) && Listed(s.open)
        invariant ValidGrid(g) && Expanding(g, dest, s, closed, q)
        invariant q in s.way && minNeighborWaylength == s.way[q] + g.waypoints[q]
        invariant 0 <= Rank(offsetX, -1) <= 8
        invariant RelaxAll(g, s, q, ns[Rank(offsetX, -1)..]) == RelaxAll(g, old(s), q, ns)
      {
        for offsetY := -1 to 2
          invariant Matrix() && Filled() && Shaped(g, s) && Measured(s.way) && Keyed(s.key) && Threaded(s.pred) && Listed(s.open)
          invariant ValidGrid(g) && Expanding(g, dest, s, closed, q)
          invariant q in s.way && minNeighborWaylength == s.way[q] + g.waypoints[q]
          invariant 0 <= Rank(offsetX, offsetY) <= 8
          invariant RelaxAll(g, s, q, ns[Rank(offsetX, offsetY)..]) == RelaxAll(g, old(s), q, ns)
        {
          RankSteps(q, offsetX, offsetY);
          if offsetX != 0 || offsetY != 0 {
            ghost var k := Rank(offsetX, offsetY);
            var m := Pos(q.x + offsetX, q.y + offsetY);
            RelaxAllStep(g, s, q, ns, k);
            RelaxKeeps(g, dest, s, closed, q, m);
            RelaxNeighbor(q, m, minNeighborWaylength, dest, closed);
          }
        }
        RankSteps(q, offsetX, 2);
      }
      RelaxAllNone(g, s, q, ns[8..]);
    }

    /** Takes the first point off the expand list. */
    method Pop(node: Point) returns (q: Pos, minNeighborWaylength: int, originWaylength: int)
      requires Matrix() && Filled() && Shaped(g, s) && Measured(s.way) && Listed(s.open) && node == firstToExpand
      modifies this`firstToExpand
      ensures s.open != [] && q == s.open[0] && Listed(s.open[1..])
      ensures q in points && InWindow(g, q) && q in s.way && ORIGIN in points
      ensures minNeighborWaylength == s.way[q] + g.waypoints[q] && originWaylength == s.way[ORIGIN]
    {
      hide FitsInt;
      q := Pos(node.x, node.y);
      firstToExpand := node.nextToExpand;
      assert s.open != [] && node == points[s.open[0]];
      minNeighborWaylength := node.waylength + node.waypoints;
      originWaylength := points[ORIGIN].waylength;
    }

    /** Takes the first point off the expand list and relaxes its neighbours. */
    method Expand(node: Point, ghost dest: Pos, ghost closed: set<Pos>)
      requires Matrix() && Filled() && Shaped(g, s) && Measured(s.way) && Keyed(s.key) && Threaded(s.pred) && Listed(s.open)
      requires ValidGrid(g) && g.waypoints.Keys == points.Keys
      requires Inv(g, dest, s, closed) && node == firstToExpand
      modifies this`firstToExpand, this`s, nodes`waylength, nodes`heuristic,
               nodes`predecessor, nodes`nextToExpand
      ensures Matrix() && Filled() && Shaped(g, s) && Measured(s.way) && Keyed(s.key) && Threaded(s.pred) && Listed(s.open)
      ensures old(s).open != [] && s == ShortwayModel.Expand(g, old(s))
    {
      hide *;
      ghost var s0 := s;
      var q, minNeighborWaylength, originWaylength := Pop(node);
      ExpandPlan(g, dest, s, closed);
      s := s.(open := s.open[1..]);
      if minNeighborWaylength >= originWaylength {
        return;
      }
      RelaxNeighbors(q, minNeighborWaylength, dest, closed + {q});
    }

    // ------------------------------------------------------ clearing the map

    ghost predicate Cleared(p: Pos)
      requires Matrix() && p in points
      reads points[p]
    {
      && points[p].waylength == INT_MAX && points[p].heuristic == INT_MAX
      && points[p].predecessor == null && points[p].nextToExpand == null
    }

    /** `m` with the value `v` on all fields of the window. */
    ghost function Reset<T>(m: map<Pos, T>, v: T): map<Pos, T> {
      map p | p in m :: if Inside(p) then v else m[p]
    }

    twostate predicate Kept(p: Pos)
      requires Matrix() && p in points
      reads points[p]
    {
      && points[p].waylength == old(points[p].waylength)
      && points[p].heuristic == old(points[p].heuristic)
      && points[p].predecessor == old(points[p].predecessor)
      && points[p].nextToExpand == old(points[p].nextToExpand)
    }

    /** Forgets the labels of one column of the window. */
    method ClearColumn(x: int)
      requires Matrix() && -visX <= x <= visX
      modifies nodes`waylength, nodes`heuristic, nodes`predecessor, nodes`nextToExpand
      ensures forall p :: p in points && Inside(p) && p.x == x ==> Cleared(p)
      ensures forall p :: p in points && !(Inside(p) && p.x == x) ==> Kept(p)
    {
      for y := -visY to visY + 1
        invariant forall p :: p in points && Inside(p) && p.x == x && p.y < y ==> Cleared(p)
        invariant forall p :: p in points && !(Inside(p) && p.x == x) ==> Kept(p)
      {
        assert InMatrix(Pos(x, y));
        var node := points[Pos(x, y)];
        node.waylength := INT_MAX;
        node.heuristic := INT_MAX;
        node.predecessor := null;
        node.nextToExpand := null;
      }
    }

    /** Forgets the labels of the window; the border keeps what it has. */
    method ClearMap(ghost way: map<Pos, int>, ghost key: map<Pos, int>, ghost pred: map<Pos, Option<Pos>>)
      requires Matrix() && Measured(way) && Keyed(key) && Threaded(pred)
      modifies nodes`waylength, nodes`heuristic, nodes`predecessor, nodes`nextToExpand
      ensures Measured(Reset(way, INT_MAX)) && Keyed(Reset(key, INT_MAX)) && Threaded(Reset(pred, None))
      ensures forall p :: p in points && Inside(p) ==> points[p].nextToExpand == null
    {
      for x := -visX to visX + 1
        invariant forall p :: p in points && Inside(p) && p.x < x ==> Cleared(p)
        invariant forall p :: p in points && !Inside(p) ==> Kept(p)
      {
        ClearColumn(x);
      }
    }

    /** Makes the destination the only point of the expand list. */
    method Seed(dest: Pos, ghost way: map<Pos, int>)
      requires Matrix() && Measured(way) && dest in points && points[dest].nextToExpand == null
      modifies this`firstToExpand, nodes`waylength
      ensures Measured(way[dest := 0]) && Listed([dest])
    {
      firstToExpand := points[dest];
      firstToExpand.waylength := 0;
    }

    ghost function Restarted(s: Search, dest: Pos): Search {
      Search(Reset(s.way, INT_MAX)[dest := 0], Reset(s.key, INT_MAX), Reset(s.pred, None), [dest])
    }

    lemma RestartedIsInitial(g: Grid, s: Search, dest: Pos)
      requires ValidGrid(g) && Shaped(g, s) && dest in g.waypoints && Inside(dest) && g.visX == visX && g.visY == visY
      ensures Shaped(g, Restarted(s, dest)) && IsInitial(g, dest, Restarted(s, dest))
    {
      hide ValidGrid;
      RestartedIsShaped(g, s, dest);
      hide Shaped, InMap;
    }

    lemma RestartedIsShaped(g: Grid, s: Search, dest: Pos)
      requires Shaped(g, s) && dest in g.waypoints && Inside(dest) && g.visX == visX && g.visY == visY
      ensures Shaped(g, Restarted(s, dest))
    {
    }

    /** Clears the map and puts the destination into the expand list. */
    method Start(dest: Pos)
      requires Matrix() && Filled() && Shaped(g, s) && Measured(s.way) && Keyed(s.key) && Threaded(s.pred)
      requires dest in points && Inside(dest)
      requires ValidGrid(g) && g.waypoints.Keys == points.Keys && g.visX == visX && g.visY == visY
      modifies this`firstToExpand, this`s, nodes`waylength, nodes`heuristic, nodes`predecessor, nodes`nextToExpand
      ensures Matrix() && Filled() && Shaped(g, s) && Measured(s.way) && Keyed(s.key) && Threaded(s.pred) && Listed(s.open)
      ensures IsInitial(g, dest, s)
    {
      hide ValidGrid, Filled, Keyed, Threaded, Measured, Listed, Matrix, Shaped, IsInitial, Reset;
      RestartedIsInitial(g, s, dest);
      ClearMap(s.way, s.key, s.pred);
      Seed(dest, Reset(s.way, INT_MAX));
      s := Restarted(s, dest);
    }

    // ------------------------------------------------------------ the search

    /** Expands fields until the expand list is empty. */
    method Run(dest: Pos) returns (ghost closed: set<Pos>)
      requires Matrix() && Filled() && Shaped(g, s) && Measured(s.way) && Keyed(s.key) && Threaded(s.pred) && Listed(s.open)
      requires ValidGrid(g) && g.waypoints.Keys == points.Keys && Inv(g, dest, s, {})
      modifies this`firstToExpand, this`s, nodes`waylength, nodes`heuristic, nodes`predecessor, nodes`nextToExpand
      ensures Matrix() && Filled() && Shaped(g, s) && Measured(s.way) && Keyed(s.key) && Threaded(s.pred) && Listed(s.open)
      ensures Inv(g, dest, s, closed) && s.open == [] && g == old(g)
      ensures Inv(g, dest, old(s), {}) && (s, closed) == Finish(g, dest, old(s), {})
    {
      hide *;
      closed := {};
      while firstToExpand != null
        invariant Filled() && Shaped(g, s) && Measured(s.way) && Keyed(s.key) && Threaded(s.pred) && Listed(s.open)
        invariant ValidGrid(g) && Inv(g, dest, s, closed)
        invariant Finish(g, dest, s, closed) == Finish(g, dest, old(s), {})
        decreases Window(g) - closed
      {
        FirstOf(s.open);
        ExpandKeeps(g, dest, s, closed);
        FinishStep(g, dest, s, closed);
        ghost var q := s.open[0];
        Expand(firstToExpand, dest, closed);
        closed := closed + {q};
      }
      FirstOf(s.open);
      FinishDone(g, dest, s, closed);
    }

    lemma FirstOf(open: seq<Pos>)
      requires Matrix() && Listed(open)
      ensures firstToExpand == null <==> open == []
    {
    }

    /** The coordinate of a field and the point its predecessor is. */
    method Hop(node: Point, ghost p: Pos) returns (at: Pos, next: Point?)
      requires Matrix() && Filled() && Threaded(s.pred)
      requires p in points && Inside(p) && node == points[p] && p in s.pred
      ensures at == p && PointsTo(next, s.pred[p])
    {
      hide ValidGrid;
      at := Pos(node.x, node.y);
      next := node.predecessor;
    }

    /** Follows a chain of predecessors from the origin, as far as the caller wants to go. */
    method Follow(dest: Pos, mustReach: bool, maxSteps: int, ghost trail: seq<Pos>) returns (steps: seq<Pos>)
      requires Matrix() && Filled() && Shaped(g, s) && Threaded(s.pred) && ORIGIN in points
      requires g.waypoints.Keys == points.Keys && g.visX == visX && g.visY == visY
      requires |trail| > 0 && trail[0] == ORIGIN && Linked(g, s, trail)
      requires |trail| > maxSteps || (trail[|trail| - 1] in s.pred && s.pred[trail[|trail| - 1]] == None)
      ensures IsWalk(trail, dest, mustReach, maxSteps, steps)
    {
      hide ValidGrid, Matrix, Filled, Threaded, Chebyshev;
      steps := [];
      var left := maxSteps;
      var curDistance := Chebyshev(ORIGIN, dest);
      var at, node := Hop(points[ORIGIN], ORIGIN);
      while node != null && left > 0 && (mustReach || curDistance > 1)
        invariant |steps| < |trail| && steps == trail[1..|steps| + 1]
        invariant left == maxSteps - |steps| && (|steps| > 0 ==> left >= 0)
        invariant curDistance == Chebyshev(trail[|steps|], dest)
        invariant PointsTo(node, s.pred[trail[|steps|]])
        invariant forall i :: 0 <= i < |steps| ==> mustReach || Chebyshev(trail[i], dest) > 1
        decreases |trail| - |steps|
      {
        at, node := Hop(node, trail[|steps| + 1]);
        steps := steps + [at];
        curDistance := Chebyshev(at, dest);
        left := left - 1;
      }
      assert |steps| + 1 < |trail| ==> s.pred[trail[|steps|]] == Some(trail[|steps| + 1]);
    }

    /** Follows the predecessors of the origin. */
    method WalkBack(dest: Pos, mustReach: bool, maxSteps: int, ghost closed: set<Pos>) returns (steps: seq<Pos>)
      requires Matrix() && Filled() && Shaped(g, s) && Threaded(s.pred)
      requires g.waypoints.Keys == points.Keys && g.visX == visX && g.visY == visY
      requires ORIGIN in points && InWindow(g, ORIGIN)
      requires Core(g, dest, s, closed) && s.way[ORIGIN] < INT_MAX
      ensures IsWalk(Trail(g, dest, s, closed, ORIGIN, Steps(maxSteps)), dest, mustReach, maxSteps, steps)
      ensures dest != ORIGIN ==> IsRoute(ORIGIN, dest, mustReach, maxSteps, steps)
    {
      hide Core, ValidGrid, Matrix, Filled, Threaded, IsWalk, Shaped, Linked, Trail, Connected, IsRoute;
      TrailLinks(g, dest, s, closed, ORIGIN, Steps(maxSteps));
      steps := Follow(dest, mustReach, maxSteps, Trail(g, dest, s, closed, ORIGIN, Steps(maxSteps)));
      if dest != ORIGIN {
        TrailIsRoute(Trail(g, dest, s, closed, ORIGIN, Steps(maxSteps)), dest, mustReach, maxSteps, steps);
      }
    }

    /** Searches for a way to a field of the window. */
    method Find(dest: Pos, mustReach: bool, maxSteps: int) returns (found: bool, walk: seq<Pos>)
      requires Matrix() && Filled() && Shaped(g, s) && Measured(s.way) && Keyed(s.key) && Threaded(s.pred) && Listed(s.open)
      requires dest in points && Inside(dest) && dest != ORIGIN
      modifies this`firstToExpand, this`s, nodes`waylength, nodes`heuristic, nodes`predecessor, nodes`nextToExpand
      ensures Matrix() && Filled() && Shaped(g, s) && Measured(s.way) && Keyed(s.key) && Threaded(s.pred) && Listed(s.open)
      ensures ValidGrid(g)
      ensures found <==> exists path :: IsPath(g, dest, path) && path[0] == ORIGIN
      ensures !found ==> walk == []
      ensures found ==> exists path :: IsCheapest(g, dest, path) && Leads(g, dest, path, mustReach, maxSteps, walk)
      ensures found ==> IsRoute(ORIGIN, dest, mustReach, maxSteps, walk)
    {
      hide *;
      Facts();
      Start(dest);
      Destination(dest);
      ChainEndsIff(g, dest, s);
      ghost var closed := Run(dest);
      Optimum(g, dest, s, closed);
      OriginLength();
      if points[ORIGIN].waylength == INT_MAX {
        return false, [];
      }
      found := true;
      walk := WalkBack(dest, mustReach, maxSteps, closed);
      ghost var path := Chain(g, dest, s, closed, ORIGIN);
      WalkLeads(g, dest, s, closed, mustReach, maxSteps, walk);
      assert IsCheapest(g, dest, path) && Leads(g, dest, path, mustReach, maxSteps, walk);
    }

    /** Looks for a way to a field given in the coordinates of the world and
        returns the steps to queue, also in the coordinates of the world. */
    method Calculate(start: Pos, destX: int, destY: int, mustReach: bool, maxSteps: int)
      returns (found: bool, steps: seq<Pos>)
      requires Represents()
      modifies this`firstToExpand, this`s, nodes`waylength, nodes`heuristic, nodes`predecessor, nodes`nextToExpand
      ensures Represents()
      ensures var dest := Pos(destX - start.x, destY - start.y);
        && (found <==> dest == ORIGIN || (Inside(dest) && exists path :: IsPath(g, dest, path) && path[0] == ORIGIN))
        && (dest == ORIGIN || !found ==> steps == [])
        && (found && dest != ORIGIN ==> exists path, walk ::
              && IsCheapest(g, dest, path)
              && Leads(g, dest, path, mustReach, maxSteps, walk)
              && IsAt(steps, start, walk)
              && (mustReach && !Springs(g, dest) && maxSteps >= |path| - 1 ==>
                    |steps| == |path| - 1 && steps[|steps| - 1] == Pos(destX, destY)))
        && (found && dest != ORIGIN ==> IsRoute(start, Pos(destX, destY), mustReach, maxSteps, steps))
    {
      hide ValidGrid, Filled, Measured, Keyed, Threaded, Listed, IsPath, Leads, IsCheapest, IsRoute;
      var dest := Pos(destX - start.x, destY - start.y);
      steps := [];
      Facts();
      if dest == ORIGIN {
        return true, steps;
      }
      if Abs(dest.x) > visX || Abs(dest.y) > visY {
        return false, steps;
      }
      assert InMatrix(dest);
      var walk;
      found, walk := Find(dest, mustReach, maxSteps);
      steps := Translate(walk, start);
      if found {
        ghost var path :| IsCheapest(g, dest, path) && Leads(g, dest, path, mustReach, maxSteps, walk);
        Arrives(g, start, dest, path, mustReach, maxSteps, walk, steps);
        RouteMoves(start, dest, mustReach, maxSteps, walk, steps);
      }
    }

    lemma Facts()
      requires Matrix() && Filled()
      ensures ORIGIN in points && InWindow(g, ORIGIN)
      ensures ValidGrid(g) && g.waypoints.Keys == points.Keys && g.visX == visX && g.visY == visY
    {
    }

    lemma Destination(dest: Pos)
      requires Matrix() && Filled() && dest in points && Inside(dest) && dest != ORIGIN
      ensures IsDestination(g, dest)
    {
    }

    lemma OriginLength()
      requires Matrix() && Measured(s.way)
      ensures ORIGIN in points && ORIGIN in s.way && points[ORIGIN].waylength == s.way[ORIGIN]
    {
    }
  }

  lemma Optimum(g: Grid, dest: Pos, s: Search, closed: set<Pos>)
    requires Inv(g, dest, s, closed) && s.open == []
    ensures ValidGrid(g) && Core(g, dest, s, closed) && ORIGIN in g.waypoints && Relevant(g, ORIGIN) && ORIGIN in s.way
    ensures s.way[ORIGIN] == INT_MAX <==> !exists path :: IsPath(g, dest, path) && path[0] == ORIGIN
    ensures s.way[ORIGIN] != INT_MAX ==>
      s.way[ORIGIN] < INT_MAX && IsCheapest(g, dest, Chain(g, dest, s, closed, ORIGIN))
  {
    hide FitsInt, IsPath, Chain, Queue, Labels, Settled;
    SearchIsOptimal(g, dest, s, closed);
  }

  /** `steps` are the fields of a walk around `start`. */
  ghost predicate IsAt(steps: seq<Pos>, start: Pos, walk: seq<Pos>) {
    && |steps| == |walk|
    && forall k :: 0 <= k < |steps| ==> steps[k].x - start.x == walk[k].x && steps[k].y - start.y == walk[k].y
  }

  /** The fields of a walk in the coordinates of the world. */
  function Translate(walk: seq<Pos>, start: Pos): (steps: seq<Pos>)
    ensures IsAt(steps, start, walk)
  {
    seq(|walk|, i requires 0 <= i < |walk| => Pos(start.x + walk[i].x, start.y + walk[i].y))
  }

  /** The field in front of step `k`. */
  function Before(start: Pos, steps: seq<Pos>, k: nat): Pos
    requires k <= |steps|
  {
    if k == 0 then start else steps[k - 1]
  }

  /**
    What a walk means for the one who makes it: each step leads to a field beside
    the one before, there are not more steps than allowed, and only when these are
    used up does it end short of the target, or of a field beside the target when
    that is enough.
  */
  ghost predicate IsRoute(start: Pos, target: Pos, mustReach: bool, maxSteps: int, steps: seq<Pos>) {
    && (forall k :: 0 <= k < |steps| ==> Adjacent(Before(start, steps, k), steps[k]))
    && |steps| <= Steps(maxSteps)
    && (forall k :: 0 <= k < |steps| ==>
          mustReach || !(Before(start, steps, k) == target || Adjacent(Before(start, steps, k), target)))
    && (|steps| < maxSteps ==> var last := Before(start, steps, |steps|);
          last == target || (!mustReach && Adjacent(last, target)))
  }

  /** Enough steps and no trap: the last step is the target. */
  lemma Arrives(g: Grid, start: Pos, dest: Pos, path: seq<Pos>, mustReach: bool, maxSteps: int,
                walk: seq<Pos>, steps: seq<Pos>)
    requires ValidGrid(g) && IsCheapest(g, dest, path) && IsAt(steps, start, walk)
    requires Leads(g, dest, path, mustReach, maxSteps, walk)
    ensures mustReach && !Springs(g, dest) && maxSteps >= |path| - 1 ==>
      |steps| == |path| - 1 && steps[|steps| - 1] == Pos(start.x + dest.x, start.y + dest.y)
  {
    hide ValidGrid, Springs, PathCost;
  }

  lemma TrailIsRoute(trail: seq<Pos>, dest: Pos, mustReach: bool, maxSteps: int, steps: seq<Pos>)
    requires IsWalk(trail, dest, mustReach, maxSteps, steps) && Connected(trail) && trail[0] == ORIGIN != dest
    requires |trail| <= Steps(maxSteps) ==> trail[|trail| - 1] == dest
    ensures IsRoute(ORIGIN, dest, mustReach, maxSteps, steps)
  {
    assert forall k :: 0 <= k <= |steps| ==> Before(ORIGIN, steps, k) == trail[k];
  }

  /** A route stays one when it is moved. */
  lemma RouteMoves(start: Pos, dest: Pos, mustReach: bool, maxSteps: int, walk: seq<Pos>, steps: seq<Pos>)
    requires IsRoute(ORIGIN, dest, mustReach, maxSteps, walk) && IsAt(steps, start, walk)
    ensures IsRoute(start, Pos(start.x + dest.x, start.y + dest.y), mustReach, maxSteps, steps)
  {
    forall k | 0 <= k <= |steps|
      ensures var p, q := Before(start, steps, k), Before(ORIGIN, walk, k); p == Pos(start.x + q.x, start.y + q.y)
    {
    }
  }

  /** `steps` follows `path` until the path or the number of steps is used up, or,
      unless the destination must be reached, the walk is next to it. */
  ghost predicate IsWalk(path: seq<Pos>, dest: Pos, mustReach: bool, maxSteps: int, steps: seq<Pos>) {
    && |steps| < |path| && steps == path[1..|steps| + 1]
    && (|steps| == 0 || |steps| <= maxSteps)
    && (forall i :: 0 <= i < |steps| ==> mustReach || Chebyshev(path[i], dest) > 1)
    && (|steps| == |path| - 1 || |steps| >= maxSteps || (!mustReach && Chebyshev(path[|steps|], dest) <= 1))
  }

  function Steps(maxSteps: int): nat {
    if maxSteps < 0 then 0 else maxSteps
  }

  /** `walk` has passed the end of `path` and goes on until the steps are used up. */
  ghost predicate Overruns(path: seq<Pos>, maxSteps: int, walk: seq<Pos>) {
    0 < |path| <= maxSteps == |walk| && path[1..] <= walk
  }

  /**
    Where a walk leads for which `path` is the chain of predecessors.  It follows
    `path`, unless a trap beside the destination springs, which makes the chain go on,
    and the caller allows for more steps than the path has.
  */
  ghost predicate Leads(g: Grid, dest: Pos, path: seq<Pos>, mustReach: bool, maxSteps: int, walk: seq<Pos>) {
    && dest in g.waypoints && |path| > 1
    && if Springs(g, dest) && mustReach && maxSteps >= |path| then Overruns(path, maxSteps, walk)
       else IsWalk(path, dest, mustReach, maxSteps, walk)
  }

  /** A walk along a trail that begins like a path. */
  lemma CutWalk(g: Grid, dest: Pos, path: seq<Pos>, trail: seq<Pos>, mustReach: bool, maxSteps: int, walk: seq<Pos>)
    requires IsPath(g, dest, path) && |path| > 1 && IsWalk(trail, dest, mustReach, maxSteps, walk)
    requires if Steps(maxSteps) < |path| - 1 then trail <= path && |trail| == Steps(maxSteps) + 1 else path <= trail
    ensures trail == path || !mustReach || maxSteps < |path| ==> IsWalk(path, dest, mustReach, maxSteps, walk)
    ensures |trail| == Steps(maxSteps) + 1 && mustReach && maxSteps >= |path| ==> Overruns(path, maxSteps, walk)
  {
    var last := |path| - 2;
    assert Adjacent(path[last], path[last + 1]) && Chebyshev(path[last], dest) <= 1;
    if maxSteps >= |path| {
      assert path == trail[..|path|];
      assert trail[1..] == path[1..] + trail[|path|..];
    }
  }

  lemma WalkLeads(g: Grid, dest: Pos, s: Search, closed: set<Pos>, mustReach: bool, maxSteps: int, walk: seq<Pos>)
    requires Inv(g, dest, s, closed) && ORIGIN in g.waypoints && Relevant(g, ORIGIN) && s.way[ORIGIN] < INT_MAX
    requires IsWalk(Trail(g, dest, s, closed, ORIGIN, Steps(maxSteps)), dest, mustReach, maxSteps, walk)
    requires dest in s.pred && (s.pred[dest] == None <==> !Springs(g, dest))
    ensures Leads(g, dest, Chain(g, dest, s, closed, ORIGIN), mustReach, maxSteps, walk)
  {
    hide FitsInt, IsPath, IsWalk, Chain, Trail, Springs, Queue, Labels, AllSettled, Overruns;
    var path, trail := Chain(g, dest, s, closed, ORIGIN), Trail(g, dest, s, closed, ORIGIN, Steps(maxSteps));
    ChainIsWay(g, dest, s, closed, ORIGIN);
    TrailIsChain(g, dest, s, closed, ORIGIN, Steps(maxSteps));
    LongEnough(g, dest, path);
    CutWalk(g, dest, path, trail, mustReach, maxSteps, walk);
  }

  /** An expansion, spelled out. */
  lemma ExpandPlan(g: Grid, dest: Pos, s: Search, closed: set<Pos>)
    requires Inv(g, dest, s, closed) && s.open != []
    ensures
      var q, s0 := s.open[0], s.(open := s.open[1..]);
      && Shaped(g, s0) && Expanding(g, dest, s0, closed + {q}, q)
      && (forall m :: m in Neighbors(q) ==> m in g.waypoints)
      && ShortwayModel.Expand(g, s) ==
           if s.way[q] + g.waypoints[q] >= s.way[ORIGIN] then s0 else RelaxAll(g, s0, q, Neighbors(q))
  {
    hide FitsInt, Queue, Labels, AllSettled, RelaxAll;
    TakeFirst(g, dest, s, closed);
  }

  /** How many neighbours come before the one at an offset. */
  ghost function Rank(offsetX: int, offsetY: int): int {
    3 * (offsetX + 1) + (offsetY + 1) - (if offsetX > 0 || (offsetX == 0 && offsetY > 0) then 1 else 0)
  }

  lemma RankSteps(q: Pos, offsetX: int, offsetY: int)
    requires -1 <= offsetX <= 2 && -1 <= offsetY <= 2
    ensures 0 <= Rank(-1, -1) == 0 && Rank(2, -1) == 8
    ensures Rank(offsetX, 2) == Rank(offsetX + 1, -1)
    ensures offsetX < 2 && offsetY < 2 && !(offsetX == 0 && offsetY == 0) ==>
      var k := Rank(offsetX, offsetY);
      && 0 <= k < 8 && Neighbors(q)[k] == Pos(q.x + offsetX, q.y + offsetY) && Rank(offsetX, offsetY + 1) == k + 1
      && Pos(q.x + offsetX, q.y + offsetY) in Neighbors(q) && Adjacent(Pos(q.x + offsetX, q.y + offsetY), q)
    ensures Rank(0, 1) == Rank(0, 0)
  {
  }

  lemma RelaxAllStep(g: Grid, s: Search, q: Pos, ns: seq<Pos>, k: nat)
    requires ValidGrid(g) && Shaped(g, s) && q in g.waypoints && k < |ns|
    requires forall m :: m in ns ==> m in g.waypoints
    ensures RelaxAll(g, s, q, ns[k..]) == RelaxAll(g, Relax(g, s, q, ns[k]), q, ns[k + 1..])
  {
    hide ValidGrid, Relax, Shaped;
    assert ns[k] in ns && ns[k..][0] == ns[k] && ns[k..][1..] == ns[k + 1..];
  }

  lemma RelaxAllNone(g: Grid, s: Search, q: Pos, ns: seq<Pos>)
    requires ValidGrid(g) && Shaped(g, s) && q in g.waypoints && ns == []
    ensures RelaxAll(g, s, q, ns) == s
  {
  }

  lemma RelaxKeeps(g: Grid, dest: Pos, s: Search, closed: set<Pos>, q: Pos, m: Pos)
    requires Expanding(g, dest, s, closed, q) && m in g.waypoints && Adjacent(m, q)
    ensures Expanding(g, dest, Relax(g, s, q, m), closed, q)
    ensures q in Relax(g, s, q, m).way && Relax(g, s, q, m).way[q] == s.way[q]
  {
    hide Queue, Labels, FitsInt;
    RelaxCore(g, dest, s, closed, q, m);
  }

  /** A relaxation, spelled out; the removal loop finds every field that has a key. */
  lemma RelaxPlan(g: Grid, dest: Pos, s: Search, closed: set<Pos>, q: Pos, m: Pos)
    requires Expanding(g, dest, s, closed, q) && m in g.waypoints && Adjacent(m, q)
    ensures var r, length := Relax(g, s, q, m), s.way[q] + StepCost(g, m, q);
      if length >= s.way[m] then r == s
      else
        && r.way == s.way[m := length] && r.pred == s.pred[m := Some(q)]
        && if m == ORIGIN || g.waypoints[m] == -1 then r.key == s.key && r.open == s.open
           else
             && Distinct(s.open) && Distinct(Without(s, m)) && m !in Without(s, m)
             && (forall i :: 0 <= i < |Without(s, m)| ==> Without(s, m)[i] in g.waypoints)
             && (s.key[m] != INT_MAX <==> m in s.open)
             && r.key == s.key[m := length + Estimate(g, m)]
             && r.open == Insert(Without(s, m), r.key, m)
  {
    hide Estimate, FitsInt;
    if s.way[q] + StepCost(g, m, q) < s.way[m] {
      RelaxedFields(g, s, q, m);
      if m != ORIGIN && g.waypoints[m] != -1 {
        ImprovedIsNew(g, dest, s, closed, q, m);
        WithoutIsList(g, dest, s, closed, m);
        RelaxedList(g, s, q, m);
      }
    }
  }

  /** Removing the first occurrence cuts the sequence there. */
  lemma {:induction false} RemoveAt(open: seq<Pos>, m: Pos, i: nat)
    requires i <= |open| && m !in open[..i]
    ensures i < |open| && open[i] == m ==> Remove(open, m) == open[..i] + open[i + 1..]
    ensures i == |open| ==> Remove(open, m) == open
  {
    if i > 0 {
      assert open[0] in open[..i];
      assert open[1..][..i - 1] == open[..i][1..];
      RemoveAt(open[1..], m, i - 1);
      if i < |open| {
        assert open[..i] + open[i + 1..] == [open[0]] + (open[1..][..i - 1] + open[1..][i..]);
      }
    }
  }

  /** Insertion happens in front of the first field whose key is not smaller. */
  lemma {:induction false} InsertAt(open: seq<Pos>, key: map<Pos, int>, m: Pos, i: nat)
    requires m in key && forall j :: 0 <= j < |open| ==> open[j] in key
    requires i <= |open| && (forall j :: 0 <= j < i ==> key[open[j]] < key[m])
    requires i < |open| ==> key[open[i]] >= key[m]
    ensures Insert(open, key, m) == open[..i] + [m] + open[i..]
  {
    if i > 0 {
      assert forall j :: 0 <= j < |open[1..]| ==> open[1..][j] == open[j + 1];
      InsertAt(open[1..], key, m, i - 1);
      Spliced(open, m, i);
    } else {
      assert open[..0] + [m] + open[0..] == [m] + open;
    }
  }

  lemma Spliced(open: seq<Pos>, m: Pos, i: nat)
    requires 0 < i <= |open|
    ensures open[..i] + [m] + open[i..] == [open[0]] + (open[1..][..i - 1] + [m] + open[1..][i - 1..])
  {
    assert open[..i] == [open[0]] + open[1..][..i - 1];
    assert open[i..] == open[1..][i - 1..];
  }

  lemma WithoutIs(s: Search, m: Pos)
    requires m in s.key
    ensures Without(s, m) == if s.key[m] != INT_MAX then Remove(s.open, m) else s.open
  {
  }
}
