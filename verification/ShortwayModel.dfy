/**
  The path finder of a creature, as a value.

  A search looks for the cheapest way between two fields of a window around a
  creature.  It runs backwards: it starts at the destination and relaxes the
  eight neighbours of one field at a time until the creature's own field, the
  origin, cannot be reached more cheaply.  Coordinates are relative to the
  creature, so the origin is (0, 0).

  `Expand` is one step of the search as a function from state to state; the
  class in Shortway.dfy performs exactly these steps on linked nodes.
*/
module ShortwayModel {
  import opened Common

  const INT_MAX := 0x7fff_ffff

  datatype Pos = Pos(x: int, y: int)

  const ORIGIN := Pos(0, 0)

  /** The Manhattan distance of a field from the origin. */
  function Distance(p: Pos): nat {
    Abs(p.x) + Abs(p.y)
  }

  /** The number of steps, counting diagonals as one, between two fields. */
  function Chebyshev(p: Pos, q: Pos): (r: nat)
    ensures r <= 1 <==> p == q || Adjacent(p, q)
  {
    var dx, dy := Abs(p.x - q.x), Abs(p.y - q.y);
    if dx < dy then dy else dx
  }

  predicate Adjacent(p: Pos, q: Pos) {
    p != q && -1 <= p.x - q.x <= 1 && -1 <= p.y - q.y <= 1
  }

  predicate Diagonal(p: Pos, q: Pos) {
    p.x != q.x && p.y != q.y
  }

  // ---------------------------------------------------------------- the grid

  /** The window of a search: `waypoints[p]` is -1 on blocked fields and on the
      border around the window; all other costs lie between `min` and `max`. */
  datatype Grid = Grid(visX: int, visY: int, waypoints: map<Pos, int>, min: int, max: int)

  predicate InWindow(g: Grid, p: Pos) {
    -g.visX <= p.x <= g.visX && -g.visY <= p.y <= g.visY
  }

  /** The window and its border of one field. */
  predicate InMap(g: Grid, p: Pos) {
    -(g.visX + 1) <= p.x <= g.visX + 1 && -(g.visY + 1) <= p.y <= g.visY + 1
  }

  function Window(g: Grid): (r: set<Pos>) {
    set p | p in g.waypoints && InWindow(g, p)
  }

  ghost predicate ValidGrid(g: Grid) {
    && 1 <= g.visX && 1 <= g.visY
    && 1 <= g.min && 0 <= g.max
    && (forall p :: p in g.waypoints <==> InMap(g, p))
    && (forall p :: p in g.waypoints && !InWindow(g, p) ==> g.waypoints[p] == -1)
    && (forall p :: p in g.waypoints ==> g.waypoints[p] == -1 || g.min <= g.waypoints[p] <= g.max)
    && FitsInt(g)
  }

  /** The largest length of a way over `n` fields. */
  ghost function Bound(g: Grid, n: int): int
    decreases n
  {
    if n <= 0 then 0 else Bound(g, n - 1) + 3 * g.max
  }

  /** No path length and no key of this window, nor one more step, reaches INT_MAX. */
  ghost predicate FitsInt(g: Grid) {
    && Bound(g, |Window(g)| + 1) < INT_MAX
    && (forall p :: p in g.waypoints && InWindow(g, p) && p != ORIGIN && Walkable(g, p) ==>
          Bound(g, |Window(g)| + 1) + Estimate(g, p) < INT_MAX)
  }

  predicate Walkable(g: Grid, p: Pos) {
    p in g.waypoints && g.waypoints[p] > 0
  }

  /** Where a search may start; a blocked destination has a cost of -1. */
  ghost predicate IsDestination(g: Grid, dest: Pos) {
    InWindow(g, dest) && dest != ORIGIN && dest in g.waypoints
  }

  /** Two fields of cost 1 beside a blocked destination, one diagonally, the other
      straight, and next to each other. */
  predicate Trap(g: Grid, dest: Pos, a: Pos, b: Pos) {
    && a != ORIGIN && b != ORIGIN && a in g.waypoints && b in g.waypoints
    && g.waypoints[a] == 1 && g.waypoints[b] == 1
    && Adjacent(a, dest) && Diagonal(a, dest) && Adjacent(b, dest) && !Diagonal(b, dest) && Adjacent(a, b)
  }

  /** A way out of the destination costs -3 to the first field, -2 to the second and
      then -1 back to the destination, which is less than nothing. */
  ghost predicate Trapped(g: Grid, dest: Pos)
    requires dest in g.waypoints
  {
    g.waypoints[dest] <= 0 && exists a, b :: Trap(g, dest, a, b)
  }

  /** The cost of entering `q` from its neighbour `p`. */
  function StepCost(g: Grid, p: Pos, q: Pos): int
    requires q in g.waypoints
  {
    g.waypoints[q] * (if Diagonal(p, q) then 3 else 1)
  }

  // ------------------------------------------------------------- paths

  /** A way from `path[0]` to `dest` over walkable fields of the window. */
  ghost predicate IsPath(g: Grid, dest: Pos, path: seq<Pos>) {
    && |path| > 0
    && path[|path| - 1] == dest
    && (forall i :: 0 < i < |path| - 1 ==> InWindow(g, path[i]) && Walkable(g, path[i]))
    && (forall i :: 0 < i < |path| ==> path[i] in g.waypoints)
    && (forall i :: 0 <= i < |path| - 1 ==> Adjacent(path[i], path[i + 1]))
  }

  /** The cost of all fields that a path enters. */
  ghost function PathCost(g: Grid, path: seq<Pos>): int
    requires forall i :: 0 < i < |path| ==> path[i] in g.waypoints
  {
    if |path| <= 1 then 0 else StepCost(g, path[0], path[1]) + PathCost(g, path[1..])
  }

  // ------------------------------------------------------------- one step

  /** The state of a search: `way[p]` is the cost of the best way from `p` to the
      destination found so far, `key[p]` the priority in the expand list. */
  datatype Search = Search(
    way: map<Pos, int>,
    key: map<Pos, int>,
    pred: map<Pos, Option<Pos>>,
    open: seq<Pos>)

  predicate Shaped(g: Grid, s: Search) {
    && s.way.Keys == g.waypoints.Keys
    && s.key.Keys == g.waypoints.Keys
    && s.pred.Keys == g.waypoints.Keys
    && (forall i :: 0 <= i < |s.open| ==> s.open[i] in g.waypoints && InWindow(g, s.open[i]))
  }

  /** A cleared map with only the destination in the expand list.  The border
      is not cleared: whatever labels it has, it is never expanded. */
  ghost predicate IsInitial(g: Grid, dest: Pos, s: Search)
    requires Shaped(g, s)
  {
    && s.open == [dest]
    && (forall p :: p in g.waypoints && InWindow(g, p) ==>
          && s.way[p] == (if p == dest then 0 else INT_MAX)
          && s.key[p] == INT_MAX
          && s.pred[p] == None)
  }

  function Remove(open: seq<Pos>, m: Pos): (r: seq<Pos>)
    ensures forall p :: p in r ==> p in open
  {
    if open == [] then []
    else if open[0] == m then open[1..]
    else [open[0]] + Remove(open[1..], m)
  }

  /** Inserts `m` before the first field whose key is not smaller. */
  function Insert(open: seq<Pos>, key: map<Pos, int>, m: Pos): (r: seq<Pos>)
    requires m in key && forall i :: 0 <= i < |open| ==> open[i] in key
    ensures |r| == |open| + 1
    ensures forall p :: p in r <==> p in open || p == m
  {
    if open == [] || key[open[0]] >= key[m] then [m] + open
    else
      var t := Insert(open[1..], key, m);
      assert open == [open[0]] + open[1..];
      [open[0]] + t
  }

  /** The estimate of the remaining cost of a way that enters `m` next. */
  function Estimate(g: Grid, m: Pos): int
    requires m in g.waypoints
  {
    g.waypoints[m] + g.min * (Distance(m) - 1)
  }

  /** Relaxes the neighbour `m` of the field `q`. */
  function Relax(g: Grid, s: Search, q: Pos, m: Pos): (r: Search)
    requires ValidGrid(g) && Shaped(g, s) && q in g.waypoints && m in g.waypoints
    ensures Shaped(g, r)
  {
    var length := s.way[q] + StepCost(g, m, q);
    if length >= s.way[m] then s
    else
      var s1 := s.(way := s.way[m := length], pred := s.pred[m := Some(q)]);
      if m == ORIGIN || g.waypoints[m] == -1 then s1
      else
        var open := if s.key[m] != INT_MAX then Remove(s.open, m) else s.open;
        var key := s.key[m := length + Estimate(g, m)];
        assert forall i :: 0 <= i < |open| ==> open[i] in s.open;
        var r := Insert(open, key, m);
        assert forall i :: 0 <= i < |r| ==> r[i] in r;
        s1.(key := key, open := r)
  }

  /** The neighbours of `q`, in the order in which they are relaxed. */
  function Neighbors(q: Pos): (r: seq<Pos>)
    ensures |r| == 8
    ensures forall m :: m in r <==> Adjacent(m, q)
  {
    var r := [
      Pos(q.x - 1, q.y - 1), Pos(q.x - 1, q.y), Pos(q.x - 1, q.y + 1),
      Pos(q.x, q.y - 1), Pos(q.x, q.y + 1),
      Pos(q.x + 1, q.y - 1), Pos(q.x + 1, q.y), Pos(q.x + 1, q.y + 1)];
    assert forall m :: Adjacent(m, q) ==> m in r by {
      forall m | Adjacent(m, q) ensures m in r {
        assert m == r[0] || m == r[1] || m == r[2] || m == r[3]
            || m == r[4] || m == r[5] || m == r[6] || m == r[7];
      }
    }
    r
  }

  function RelaxAll(g: Grid, s: Search, q: Pos, ms: seq<Pos>): (r: Search)
    requires ValidGrid(g) && Shaped(g, s) && q in g.waypoints
    requires forall m :: m in ms ==> m in g.waypoints
    ensures Shaped(g, r)
    decreases |ms|
  {
    if ms == [] then s
    else
      assert ms[0] in ms;
      RelaxAll(g, Relax(g, s, q, ms[0]), q, ms[1..])
  }

  /** Takes the first field off the expand list and relaxes its neighbours,
      unless even an orthogonal step from it cannot improve the origin. */
  function Expand(g: Grid, s: Search): (r: Search)
    requires ValidGrid(g) && Shaped(g, s) && s.open != []
    ensures Shaped(g, r)
  {
    var q := s.open[0];
    var s0 := s.(open := s.open[1..]);
    if s.way[q] + g.waypoints[q] >= s.way[ORIGIN] then s0
    else RelaxAll(g, s0, q, Neighbors(q))
  }
}
