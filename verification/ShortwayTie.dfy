/**
  The order in which fields of the same key are expanded.  It matters for one kind of
  trap: when the destination lies two straight steps away and the field in between
  belongs to the trap.
*/
module ShortwayTie {
  import opened Common
  import opened ShortwayModel
  import opened ShortwayProof
  import opened ShortwayTrap

  // ---------------------------------------------------------- the head of the list

  /** Relaxing `m` puts it into the list. */
  predicate Joins(g: Grid, s: Search, q: Pos, m: Pos)
    requires q in s.way && q in g.waypoints && m in s.way && m in g.waypoints
  {
    m != ORIGIN && g.waypoints[m] != -1 && s.way[q] + StepCost(g, m, q) < s.way[m]
  }

  function NewKey(g: Grid, s: Search, q: Pos, m: Pos): int
    requires q in s.way && q in g.waypoints && m in g.waypoints
  {
    s.way[q] + StepCost(g, m, q) + Estimate(g, m)
  }

  ghost predicate Ready(g: Grid, s: Search, q: Pos, ms: seq<Pos>) {
    && ValidGrid(g) && Shaped(g, s) && q in g.waypoints && q in s.way && q !in ms && Distinct(ms)
    && (forall m :: m in ms ==> m in g.waypoints && m in s.way)
  }

  ghost predicate IsHead(s: Search, t: Pos, k: int) {
    s.open != [] && s.open[0] == t && t in s.key && s.key[t] == k
  }

  /** Relaxing one field changes nothing about the others. */
  lemma RelaxLocal(g: Grid, s: Search, q: Pos, ms: seq<Pos>)
    requires Ready(g, s, q, ms) && ms != []
    ensures var r := Relax(g, s, q, ms[0]);
      && Ready(g, r, q, ms[1..]) && r.way[q] == s.way[q]
      && (forall m :: m in ms[1..] ==> r.way[m] == s.way[m])
    ensures forall m :: m in ms[1..] ==> m in ms
  {
    hide FitsInt, StepCost, Estimate, Relax;
    var m := ms[0];
    assert m in ms;
    if s.way[q] + StepCost(g, m, q) < s.way[m] {
      RelaxedFields(g, s, q, m);
    } else {
      RelaxNothing(g, s, q, m);
    }
  }

  /** Where a relaxed field goes in the list. */
  lemma RelaxedOpen(g: Grid, s: Search, q: Pos, m: Pos)
    requires ValidGrid(g) && Shaped(g, s) && q in g.waypoints && m in g.waypoints && m in s.way && q in s.way && m in s.key
    ensures var r := Relax(g, s, q, m);
      if Joins(g, s, q, m) then
        && (forall i :: 0 <= i < |Without(s, m)| ==> Without(s, m)[i] in s.key && Without(s, m)[i] in s.open)
        && r.key == s.key[m := NewKey(g, s, q, m)]
        && r.open == Insert(Without(s, m), r.key, m)
      else r.key == s.key && r.open == s.open
  {
    hide *;
    if Joins(g, s, q, m) {
      WithoutIsOpen(g, s, m);
      JoinedOpen(g, s, q, m);
    } else {
      SameOpen(g, s, q, m);
    }
  }

  lemma JoinedOpen(g: Grid, s: Search, q: Pos, m: Pos)
    requires ValidGrid(g) && Shaped(g, s) && q in g.waypoints && m in g.waypoints && m in s.way && q in s.way && m in s.key
    requires Joins(g, s, q, m) && forall i :: 0 <= i < |Without(s, m)| ==> Without(s, m)[i] in s.key
    ensures var r := Relax(g, s, q, m);
      && r.key == s.key[m := NewKey(g, s, q, m)]
      && r.open == Insert(Without(s, m), r.key, m)
  {
    hide *;
    JoinsMeans(g, s, q, m);
    RelaxedList(g, s, q, m);
  }

  lemma JoinsMeans(g: Grid, s: Search, q: Pos, m: Pos)
    requires q in s.way && q in g.waypoints && m in s.way && m in g.waypoints && Joins(g, s, q, m)
    ensures m != ORIGIN && g.waypoints[m] != -1 && s.way[q] + StepCost(g, m, q) < s.way[m]
    ensures NewKey(g, s, q, m) == s.way[q] + StepCost(g, m, q) + Estimate(g, m)
  {
  }

  lemma WithoutIsOpen(g: Grid, s: Search, m: Pos)
    requires Shaped(g, s) && m in s.key
    ensures forall i :: 0 <= i < |Without(s, m)| ==> Without(s, m)[i] in s.key && Without(s, m)[i] in s.open
  {
    hide InWindow;
    forall i | 0 <= i < |Without(s, m)| ensures Without(s, m)[i] in s.key && Without(s, m)[i] in s.open {
      assert Without(s, m)[i] in Without(s, m);
      assert Without(s, m)[i] in s.open;
    }
  }

  lemma SameOpen(g: Grid, s: Search, q: Pos, m: Pos)
    requires ValidGrid(g) && Shaped(g, s) && q in g.waypoints && m in g.waypoints && m in s.way && q in s.way
    requires !Joins(g, s, q, m)
    ensures Relax(g, s, q, m).key == s.key && Relax(g, s, q, m).open == s.open
  {
    hide FitsInt, StepCost, Estimate, Relax, ValidGrid, Shaped;
    if s.way[q] + StepCost(g, m, q) < s.way[m] {
      RelaxedFields(g, s, q, m);
    } else {
      RelaxNothing(g, s, q, m);
    }
  }

  lemma OneHeadStays(g: Grid, s: Search, q: Pos, m: Pos, t: Pos, k: int)
    requires ValidGrid(g) && Shaped(g, s) && q in g.waypoints && m in g.waypoints && m in s.way && q in s.way
    requires IsHead(s, t, k) && m != t && (Joins(g, s, q, m) ==> NewKey(g, s, q, m) > k)
    ensures IsHead(Relax(g, s, q, m), t, k)
  {
    hide FitsInt, Joins, NewKey, Relax, ValidGrid;
    RelaxedOpen(g, s, q, m);
  }

  /** Fields with larger keys do not displace the head. */
  lemma {:induction false} HeadStays(g: Grid, s: Search, q: Pos, ms: seq<Pos>, t: Pos, k: int)
    requires Ready(g, s, q, ms) && IsHead(s, t, k) && t !in ms
    requires forall m :: m in ms && Joins(g, s, q, m) ==> NewKey(g, s, q, m) > k
    ensures IsHead(RelaxAll(g, s, q, ms), t, k)
    decreases |ms|
  {
    hide ValidGrid, StepCost, Estimate, Relax;
    if ms != [] {
      RelaxLocal(g, s, q, ms);
      assert ms[0] in ms;
      OneHeadStays(g, s, q, ms[0], t, k);
      HeadStays(g, Relax(g, s, q, ms[0]), q, ms[1..], t, k);
    }
  }

  ghost predicate KeysAtLeast(s: Search, k: int) {
    forall p :: p in s.open ==> p in s.key && s.key[p] >= k
  }

  lemma OneBecomesHead(g: Grid, s: Search, q: Pos, t: Pos, k: int)
    requires ValidGrid(g) && Shaped(g, s) && q in g.waypoints && t in g.waypoints && t in s.way && q in s.way
    requires KeysAtLeast(s, k) && Joins(g, s, q, t) && NewKey(g, s, q, t) == k
    ensures IsHead(Relax(g, s, q, t), t, k)
  {
    hide FitsInt, Joins, NewKey, Relax, ValidGrid;
    RelaxedOpen(g, s, q, t);
    var w := Without(s, t);
    assert w != [] ==> w[0] in s.open;
  }

  lemma KeysStay(g: Grid, s: Search, q: Pos, m: Pos, k: int)
    requires ValidGrid(g) && Shaped(g, s) && q in g.waypoints && m in g.waypoints && m in s.way && q in s.way
    requires KeysAtLeast(s, k) && (Joins(g, s, q, m) ==> NewKey(g, s, q, m) >= k)
    ensures KeysAtLeast(Relax(g, s, q, m), k)
  {
    hide FitsInt, Joins, NewKey, Relax, ValidGrid;
    RelaxedOpen(g, s, q, m);
  }

  /** The last field that joins with the smallest key becomes the head. */
  lemma {:induction false} HeadComes(g: Grid, s: Search, q: Pos, ms: seq<Pos>, i: nat, k: int)
    requires Ready(g, s, q, ms) && KeysAtLeast(s, k) && i < |ms|
    requires forall m :: m in ms && Joins(g, s, q, m) ==> NewKey(g, s, q, m) >= k
    requires Joins(g, s, q, ms[i]) && NewKey(g, s, q, ms[i]) == k
    requires forall j :: i < j < |ms| && Joins(g, s, q, ms[j]) ==> NewKey(g, s, q, ms[j]) > k
    ensures IsHead(RelaxAll(g, s, q, ms), ms[i], k)
    decreases |ms|
  {
    hide ValidGrid, StepCost, Estimate, Relax, Joins, NewKey;
    RelaxLocal(g, s, q, ms);
    var r := Relax(g, s, q, ms[0]);
    assert ms[0] in ms;
    JoinsAlike(g, s, r, q, ms[1..]);
    if i == 0 {
      OneBecomesHead(g, s, q, ms[0], k);
      forall m | m in ms[1..] && Joins(g, r, q, m) ensures NewKey(g, r, q, m) > k {
        var j :| 0 <= j < |ms[1..]| && ms[1..][j] == m;
        assert ms[j + 1] == m;
      }
      HeadStays(g, r, q, ms[1..], ms[0], k);
    } else {
      KeysStay(g, s, q, ms[0], k);
      assert ms[1..][i - 1] == ms[i];
      HeadComes(g, r, q, ms[1..], i - 1, k);
    }
  }

  lemma JoinsAlike(g: Grid, s: Search, r: Search, q: Pos, ms: seq<Pos>)
    requires q in s.way && q in r.way && q in g.waypoints && r.way[q] == s.way[q]
    requires forall m :: m in ms ==> m in g.waypoints && m in s.way && m in r.way && r.way[m] == s.way[m]
    ensures forall m :: m in ms ==> (Joins(g, r, q, m) <==> Joins(g, s, q, m)) && NewKey(g, r, q, m) == NewKey(g, s, q, m)
  {
  }

  // ---------------------------------------------------------- two straight steps away

  /** In the order in which neighbours are relaxed. */
  predicate Later(p: Pos, q: Pos) {
    p.x > q.x || (p.x == q.x && p.y > q.y)
  }

  lemma NeighborsOrdered(q: Pos)
    ensures forall i, j :: 0 <= i < j < |Neighbors(q)| ==> Later(Neighbors(q)[j], Neighbors(q)[i])
    ensures q !in Neighbors(q) && Distinct(Neighbors(q))
  {
  }

  function Sum(p: Pos, q: Pos): Pos {
    Pos(p.x + q.x, p.y + q.y)
  }

  function Double(p: Pos): Pos {
    Pos(2 * p.x, 2 * p.y)
  }

  function Difference(p: Pos, q: Pos): Pos {
    Pos(p.x - q.x, p.y - q.y)
  }

  /** Two fields straight beside the origin, at a right angle. */
  predicate Cross(b: Pos, n: Pos) {
    || (b.y == 0 && n.x == 0 && (b.x == 1 || b.x == -1) && (n.y == 1 || n.y == -1))
    || (b.x == 0 && n.y == 0 && (b.y == 1 || b.y == -1) && (n.x == 1 || n.x == -1))
  }

  /**
    The destination is two straight steps away, `b` lies in between, and `n` is the field
    beside the origin on one side of `b`; the trap on this side is the one expanded first.
  */
  predicate Tie(g: Grid, dest: Pos, b: Pos, n: Pos) {
    && Cross(b, n) && dest == Double(b)
    && Trap(g, dest, Sum(b, n), b)
    && (Later(Sum(b, n), Difference(b, n)) || !Trap(g, dest, Difference(b, n), b))
  }

  /** `m` is next to `b` on the side of `n`, or on the other side. */
  predicate Beside(m: Pos, b: Pos, n: Pos) {
    m.x == b.x + n.x && m.y == b.y + n.y
  }

  predicate Across(m: Pos, b: Pos, n: Pos) {
    m.x == b.x - n.x && m.y == b.y - n.y
  }

  predicate At(m: Pos, p: Pos) {
    m.x == p.x && m.y == p.y
  }

  lemma SamePos(m: Pos, p: Pos)
    ensures At(m, p) <==> m == p
  {
  }

  lemma SamePlaces(m: Pos, b: Pos, n: Pos)
    ensures Beside(m, b, n) <==> m == Sum(b, n)
    ensures Across(m, b, n) <==> m == Difference(b, n)
  {
    SamePos(m, Sum(b, n));
    SamePos(m, Difference(b, n));
  }

  /** The fields around the destination, in coordinates. */
  lemma DestCoordinates(x: int, y: int, bx: int, b_y: int, nx: int, ny: int)
    requires (b_y == 0 && nx == 0 && (bx == 1 || bx == -1) && (ny == 1 || ny == -1))
          || (bx == 0 && ny == 0 && (b_y == 1 || b_y == -1) && (nx == 1 || nx == -1))
    requires -1 <= x - 2 * bx <= 1 && -1 <= y - 2 * b_y <= 1 && (x != 2 * bx || y != 2 * b_y)
    ensures x != 2 * bx && y != 2 * b_y ==>
      (((x == bx + nx && y == b_y + ny) || (x == bx - nx && y == b_y - ny)) && Abs(x) + Abs(y) == 2) || Abs(x) + Abs(y) == 4
    ensures x == 2 * bx || y == 2 * b_y ==> (x == bx && y == b_y && Abs(x) + Abs(y) == 1) || Abs(x) + Abs(y) == 3
    ensures x == bx + nx && y == b_y + ny ==> x != 2 * bx && y != 2 * b_y && Abs(x) + Abs(y) == 2
  {
  }

  lemma NotOrigin(m: Pos)
    requires m != ORIGIN
    ensures Distance(m) >= 1
  {
  }

  lemma Near(m: Pos, p: Pos)
    requires Adjacent(m, p)
    ensures (m.x != p.x || m.y != p.y) && -1 <= m.x - p.x <= 1 && -1 <= m.y - p.y <= 1
  {
  }

  lemma AroundDest(b: Pos, n: Pos, m: Pos)
    requires Cross(b, n) && Adjacent(m, Double(b))
    ensures Diagonal(m, Double(b)) ==> ((Beside(m, b, n) || Across(m, b, n)) && Distance(m) == 2) || Distance(m) == 4
    ensures !Diagonal(m, Double(b)) ==> (At(m, b) && Distance(m) == 1) || Distance(m) == 3
    ensures Beside(m, b, n) ==> Diagonal(m, Double(b)) && Distance(m) == 2
  {
    hide Abs, Adjacent;
    Near(m, Double(b));
    DestCoordinates(m.x, m.y, b.x, b.y, n.x, n.y);
  }

  /** The fields one straight step from the origin that are next to a trap. */
  lemma AroundTrap(b: Pos, n: Pos, m: Pos)
    requires Cross(b, n) && Distance(m) == 1 && -1 <= m.x - (b.x + n.x) <= 1 && -1 <= m.y - (b.y + n.y) <= 1
    ensures At(m, b) || At(m, n)
  {
  }

  lemma UnitDistance(b: Pos, n: Pos)
    requires Cross(b, n)
    ensures Distance(b) == 1 && Distance(n) == 1
  {
  }

  lemma StraightFromTrap(b: Pos, n: Pos)
    requires Cross(b, n)
    ensures !Diagonal(b, Sum(b, n)) && !Diagonal(n, Sum(b, n))
  {
  }

  /** What a tie means for the map and its costs. */
  lemma TieFacts(g: Grid, dest: Pos, b: Pos, n: Pos)
    requires ValidGrid(g) && Tie(g, dest, b, n)
    ensures g.min == 1 && InWindow(g, b) && InWindow(g, Sum(b, n)) && InWindow(g, n) && n in g.waypoints
  {
    hide FitsInt, Later, Diagonal, Adjacent;
    assert Cross(b, n) by { TieIsCross(g, dest, b, n); }
    assert InWindow(g, b) && InWindow(g, Sum(b, n));
    assert InMap(g, n);
  }

  lemma TieIsCross(g: Grid, dest: Pos, b: Pos, n: Pos)
    requires Tie(g, dest, b, n)
    ensures Cross(b, n) && dest == Double(b)
  {
  }

  lemma AwayFromDest(b: Pos, n: Pos)
    requires Cross(b, n)
    ensures var dest := Double(b); !Adjacent(n, dest) && !Adjacent(ORIGIN, dest) && Chebyshev(n, dest) == 2 && n != dest
  {
  }

  lemma CostAtLeastOne(g: Grid, m: Pos)
    requires ValidGrid(g) && Walkable(g, m) && g.min == 1
    ensures Estimate(g, m) == g.waypoints[m] + Distance(m) - 1 && g.waypoints[m] >= 1
  {
    hide FitsInt;
  }

  /** The keys of the neighbours of the destination: those of the traps are the smallest. */
  lemma FirstKeys(g: Grid, dest: Pos, b: Pos, n: Pos, m: Pos)
    requires ValidGrid(g) && IsDestination(g, dest) && Tie(g, dest, b, n) && g.waypoints[dest] == -1
    requires Adjacent(m, dest) && Walkable(g, m)
    ensures StepCost(g, m, dest) + Estimate(g, m) >= -1
    ensures StepCost(g, m, dest) + Estimate(g, m) == -1 ==>
      Beside(m, b, n) || (Across(m, b, n) && Trap(g, dest, m, b))
    ensures Beside(m, b, n) ==> StepCost(g, m, dest) + Estimate(g, m) == -1
  {
    hide ValidGrid, Estimate, Later, Trap, Adjacent, Distance, Diagonal, Cross, Beside, Across, At;
    TieFacts(g, dest, b, n);
    TieIsCross(g, dest, b, n);
    AroundDest(b, n, m);
    CostAtLeastOne(g, m);
    if Beside(m, b, n) {
      SamePlaces(m, b, n);
      TieAdjacent(g, dest, b, n);
    }
    if Across(m, b, n) && g.waypoints[m] == 1 {
      SamePlaces(m, b, n);
      Mirror(b, n);
      TieAdjacent(g, dest, b, n);
      MirrorTrap(g, dest, m, b);
    }
  }

  lemma MirrorTrap(g: Grid, dest: Pos, a: Pos, b: Pos)
    requires a != ORIGIN && b != ORIGIN && a in g.waypoints && b in g.waypoints && g.waypoints[a] == 1 && g.waypoints[b] == 1
    requires Adjacent(a, dest) && Diagonal(a, dest) && Adjacent(b, dest) && !Diagonal(b, dest) && Adjacent(a, b)
    ensures Trap(g, dest, a, b)
  {
  }

  lemma Mirror(b: Pos, n: Pos)
    requires Cross(b, n)
    ensures var a, dest := Difference(b, n), Double(b);
      a != ORIGIN && b != ORIGIN && Adjacent(a, dest) && Diagonal(a, dest) && Adjacent(b, dest) && !Diagonal(b, dest) && Adjacent(a, b)
  {
    CrossDiagonal(b, n, Difference(b, n), Double(b));
    hide *;
    MirrorToDest(b, n);
    MirrorToBetween(b, n);
    BetweenToDest(b, n);
  }

  lemma CrossDiagonal(b: Pos, n: Pos, p: Pos, q: Pos)
    requires Cross(b, n) && p.x == q.x - (b.x + n.x) && p.y == q.y - (b.y + n.y)
    ensures Diagonal(p, q)
  {
    assert b.x + n.x == 1 || b.x + n.x == -1;
    assert b.y + n.y == 1 || b.y + n.y == -1;
  }

  lemma MirrorToDest(b: Pos, n: Pos)
    requires Cross(b, n)
    ensures Adjacent(Difference(b, n), Double(b))
  {
  }

  lemma MirrorToBetween(b: Pos, n: Pos)
    requires Cross(b, n)
    ensures Adjacent(Difference(b, n), b) && Difference(b, n) != ORIGIN
  {
  }

  lemma BetweenToDest(b: Pos, n: Pos)
    requires Cross(b, n)
    ensures Adjacent(b, Double(b)) && !Diagonal(b, Double(b)) && b != ORIGIN
  {
  }

  /** The keys of the neighbours of the field expanded next. */
  lemma SecondKeys(g: Grid, dest: Pos, b: Pos, n: Pos, m: Pos)
    requires ValidGrid(g) && Tie(g, dest, b, n)
    requires Adjacent(m, Sum(b, n)) && Walkable(g, m) && m != ORIGIN
    ensures -3 + StepCost(g, m, Sum(b, n)) + Estimate(g, m) >= -1
    ensures -3 + StepCost(g, m, Sum(b, n)) + Estimate(g, m) == -1 ==> m == b || (m == n && g.waypoints[m] == 1)
  {
    hide ValidGrid, Estimate, Later, Trap, Adjacent, Distance, Diagonal, Cross, At, Sum, StepCost, Tie;
    TieFacts(g, dest, b, n);
    TieAdjacent(g, dest, b, n);
    CostAtLeastOne(g, m);
    NotOrigin(m);
    UnitCost(g, m, Sum(b, n));
    if Distance(m) == 1 {
      UnitNeighbor(g, dest, b, n, m);
    }
  }

  lemma UnitCost(g: Grid, p: Pos, q: Pos)
    requires q in g.waypoints && g.waypoints[q] == 1
    ensures StepCost(g, p, q) == if Diagonal(p, q) then 3 else 1
  {
  }

  lemma UnitNeighbor(g: Grid, dest: Pos, b: Pos, n: Pos, m: Pos)
    requires Tie(g, dest, b, n) && Adjacent(m, Sum(b, n)) && Distance(m) == 1
    ensures m == b || m == n
  {
    hide At, Distance, Trap, Later, Cross, Adjacent;
    Near(m, Sum(b, n));
    AroundTrap(b, n, m);
    SamePos(m, b);
    SamePos(m, n);
  }

  /** The key of the two fields beside the origin. */
  lemma SecondHeads(g: Grid, dest: Pos, b: Pos, n: Pos, m: Pos)
    requires ValidGrid(g) && Tie(g, dest, b, n) && Walkable(g, m) && (m == b || m == n) && g.waypoints[m] == 1
    ensures StepCost(g, m, Sum(b, n)) == 1 && -3 + StepCost(g, m, Sum(b, n)) + Estimate(g, m) == -1
  {
    hide ValidGrid, Estimate, Later, Trap, Adjacent, Distance, Diagonal, Cross, At, Sum, StepCost;
    TieFacts(g, dest, b, n);
    TieAdjacent(g, dest, b, n);
    UnitDistance(b, n);
    StraightFromTrap(b, n);
    CostAtLeastOne(g, m);
    UnitCost(g, m, Sum(b, n));
  }

  /** The destination is expanded first, and the trap on the side of `n` comes next. */
  lemma FirstExpansion(g: Grid, dest: Pos, s: Search, b: Pos, n: Pos)
    requires Inv(g, dest, s, {}) && IsInitial(g, dest, s) && Tie(g, dest, b, n) && g.waypoints[dest] == -1
    ensures IsHead(Expand(g, s), Sum(b, n), -1) && Inv(g, dest, Expand(g, s), {dest})
  {
    hide FitsInt, Tie, StepCost, Estimate, RelaxAll, Labels, Queue, AllSettled;
    var s0 := s.(open := s.open[1..]);
    ExpandKeeps(g, dest, s, {});
    assert {} + {dest} == {dest};
    DestinationNotPruned(g, dest, s);
    TakeFirst(g, dest, s, {});
    TieAdjacent(g, dest, b, n);
    FirstHead(g, dest, s0, b, n);
  }

  lemma FirstHead(g: Grid, dest: Pos, s: Search, b: Pos, n: Pos)
    requires ValidGrid(g) && IsDestination(g, dest) && Shaped(g, s) && Tie(g, dest, b, n) && g.waypoints[dest] == -1
    requires s.open == [] && (forall p :: p in g.waypoints && InWindow(g, p) ==> s.way[p] == if p == dest then 0 else INT_MAX)
    requires forall m :: m in Neighbors(dest) ==> m in g.waypoints
    ensures IsHead(RelaxAll(g, s, dest, Neighbors(dest)), Sum(b, n), -1)
  {
    hide FitsInt, Tie, StepCost, Estimate, RelaxAll;
    var a, ms := Sum(b, n), Neighbors(dest);
    NeighborsOrdered(dest);
    TieAdjacent(g, dest, b, n);
    TieFacts(g, dest, b, n);
    var i :| 0 <= i < |ms| && ms[i] == a;
    SamePlaces(a, b, n);
    FirstKeys(g, dest, b, n, a);
    forall m | m in ms && Joins(g, s, dest, m) ensures NewKey(g, s, dest, m) >= -1 {
      FirstKeys(g, dest, b, n, m);
    }
    forall j | i < j < |ms| && Joins(g, s, dest, ms[j]) ensures NewKey(g, s, dest, ms[j]) > -1 {
      assert ms[j] in ms && Later(ms[j], a);
      FirstKeys(g, dest, b, n, ms[j]);
      SamePlaces(ms[j], b, n);
      if ms[j] == Difference(b, n) {
        TieOrder(g, dest, b, n, ms[j]);
      }
    }
    assert Joins(g, s, dest, a) by { FirstCost(g, dest, a); }
    HeadComes(g, s, dest, ms, i, -1);
  }

  lemma FirstCost(g: Grid, dest: Pos, m: Pos)
    requires dest in g.waypoints && g.waypoints[dest] == -1
    ensures StepCost(g, m, dest) < 0
  {
  }

  lemma TieAdjacent(g: Grid, dest: Pos, b: Pos, n: Pos)
    requires Tie(g, dest, b, n)
    ensures Adjacent(Sum(b, n), dest) && Sum(b, n) != ORIGIN && Sum(b, n) in g.waypoints && g.waypoints[Sum(b, n)] == 1
    ensures Adjacent(b, Sum(b, n)) && Adjacent(n, Sum(b, n)) && Adjacent(ORIGIN, Sum(b, n)) && Adjacent(dest, b) && Adjacent(b, dest)
    ensures Adjacent(ORIGIN, n) && !Diagonal(ORIGIN, n) && !Diagonal(dest, b) && b != ORIGIN && n != ORIGIN
    ensures Diagonal(ORIGIN, Sum(b, n)) && Diagonal(dest, Sum(b, n)) && Adjacent(dest, Sum(b, n))
    ensures b in g.waypoints && g.waypoints[b] == 1 && b != dest && b != Sum(b, n) && n != Sum(b, n) && n != b
  {
    hide Later;
  }

  lemma TieOrder(g: Grid, dest: Pos, b: Pos, n: Pos, m: Pos)
    requires Tie(g, dest, b, n) && Later(m, Sum(b, n)) && m == Difference(b, n)
    ensures !Trap(g, dest, m, b)
  {
  }

  // ---------------------------------------------------------- the first three expansions

  /** After the first one, only neighbours of the destination have labels. */
  lemma FirstLabels(g: Grid, dest: Pos, s: Search, b: Pos, n: Pos)
    requires Inv(g, dest, s, {dest}) && Tie(g, dest, b, n) && IsHead(s, Sum(b, n), -1) && g.waypoints[dest] == -1
    ensures var a := Sum(b, n);
      && {a, b, n, ORIGIN, dest} <= s.way.Keys
      && s.way[a] == -3 && s.way[b] == -1 && (Walkable(g, n) ==> s.way[n] == INT_MAX)
      && s.way[ORIGIN] == INT_MAX && s.way[dest] == 0
  {
    hide FitsInt, Estimate, Tie, Trapped, Floor, Sum, Labels, Queue, AllSettled, StepCost, Adjacent, Diagonal;
    TieAdjacent(g, dest, b, n);
    TieFacts(g, dest, b, n);
    TieApart(g, dest, b, n);
    DestCosts(g, dest, b, Sum(b, n));
    FromOne(g, dest, s, Sum(b, n));
    FromOne(g, dest, s, b);
    FromOne(g, dest, s, ORIGIN);
    if Walkable(g, n) {
      FromOne(g, dest, s, n);
    }
  }

  /** Where a label comes from when the destination has been expanded: the fields beside it have one. */
  lemma FromOne(g: Grid, dest: Pos, s: Search, p: Pos)
    requires Inv(g, dest, s, {dest}) && p in g.waypoints && Relevant(g, p) && p != dest && g.waypoints[dest] == -1
    ensures p in s.way && dest in s.way && s.way[dest] == 0
    ensures s.way[p] == if Adjacent(p, dest) then StepCost(g, p, dest) else INT_MAX
  {
    hide FitsInt, Estimate, Trapped, Floor, Queue;
    assert DestLabel(g, dest, s, {dest});
    assert Settled(g, dest, s, dest);
    assert Label(g, dest, s, {dest}, p);
  }

  lemma TieApart(g: Grid, dest: Pos, b: Pos, n: Pos)
    requires Tie(g, dest, b, n)
    ensures !Adjacent(n, dest) && !Adjacent(dest, n) && !Adjacent(ORIGIN, dest) && n != dest
  {
    AwayFromDest(b, n);
  }

  /** The field that is expanded third: the one beside the trap that was relaxed last. */
  function Third(g: Grid, b: Pos, n: Pos): Pos {
    if Walkable(g, n) && g.waypoints[n] == 1 && Later(n, b) then n else b
  }

  lemma HeadIsLeast(s: Search, t: Pos, k: int)
    requires (forall i :: 0 <= i < |s.open| ==> s.open[i] in s.key) && Sorted(s.open, s.key) && IsHead(s, t, k)
    ensures KeysAtLeast(s, k) && KeysAtLeast(s.(open := s.open[1..]), k)
  {
    forall p | p in s.open ensures p in s.key && s.key[p] >= k {
      var i :| 0 <= i < |s.open| && s.open[i] == p;
    }
    assert forall p :: p in s.open[1..] ==> p in s.open;
  }

  lemma SecondHead(g: Grid, dest: Pos, s: Search, b: Pos, n: Pos)
    requires ValidGrid(g) && Tie(g, dest, b, n) && g.waypoints[dest] == -1 && Shaped(g, s) && KeysAtLeast(s, -1)
    requires {Sum(b, n), b, n} <= s.way.Keys && s.way[Sum(b, n)] == -3 && s.way[b] == -1 && (Walkable(g, n) ==> s.way[n] == INT_MAX)
    requires forall m :: m in Neighbors(Sum(b, n)) ==> m in g.waypoints
    requires Sum(b, n) in g.waypoints
    ensures IsHead(RelaxAll(g, s, Sum(b, n), Neighbors(Sum(b, n))), Third(g, b, n), -1)
  {
    hide FitsInt, Tie, StepCost, Estimate, RelaxAll, ValidGrid, Sum, Adjacent, Cross;
    var a, t := Sum(b, n), Third(g, b, n);
    var ms := Neighbors(a);
    NeighborsOrdered(a);
    TieAdjacent(g, dest, b, n);
    TieFacts(g, dest, b, n);
    assert t in ms;
    var i :| 0 <= i < |ms| && ms[i] == t;
    SecondHeads(g, dest, b, n, t);
    forall m | m in ms && Joins(g, s, a, m) ensures NewKey(g, s, a, m) >= -1 && Walkable(g, m) {
      JoinsWalkable(g, s, a, m);
      SecondKeys(g, dest, b, n, m);
    }
    forall j | i < j < |ms| && Joins(g, s, a, ms[j]) ensures NewKey(g, s, a, ms[j]) > -1 {
      assert ms[j] in ms && Later(ms[j], t);
      JoinsWalkable(g, s, a, ms[j]);
      SecondKeys(g, dest, b, n, ms[j]);
    }
    HeadComes(g, s, a, ms, i, -1);
  }

  lemma JoinsWalkable(g: Grid, s: Search, q: Pos, m: Pos)
    requires ValidGrid(g) && q in s.way && q in g.waypoints && m in s.way && m in g.waypoints && Joins(g, s, q, m)
    ensures Walkable(g, m) && m != ORIGIN
  {
    hide FitsInt;
  }

  /** After the second one, the origin has been reached at no cost. */
  lemma SecondExpansion(g: Grid, dest: Pos, s: Search, b: Pos, n: Pos)
    requires Inv(g, dest, s, {dest}) && Tie(g, dest, b, n) && IsHead(s, Sum(b, n), -1) && g.waypoints[dest] == -1
    ensures var r, t := Expand(g, s), Third(g, b, n);
      && Inv(g, dest, r, {dest, Sum(b, n)}) && IsHead(r, t, -1)
      && {ORIGIN, t, dest} <= r.way.Keys && r.way[ORIGIN] == 0 && r.way[t] == -2 && r.way[dest] == 0
  {
    hide FitsInt, Estimate, Tie, Trapped, Floor, Sum, StepCost, Relax, RelaxAll, Labels, AllSettled, Adjacent, Neighbors;
    var a, s0 := Sum(b, n), s.(open := s.open[1..]);
    FirstLabels(g, dest, s, b, n);
    TieAdjacent(g, dest, b, n);
    ExpandKeeps(g, dest, s, {dest});
    assert {dest} + {a} == {dest, a};
    TakeFirst(g, dest, s, {dest});
    HeadIsLeast(s, a, -1);
    NeighborsOnMap(g, a);
    SecondHead(g, dest, s0, b, n);
    DestAfterTrap(g, dest, s0, a);
    SecondLabels(g, dest, Expand(g, s), b, n);
  }

  lemma DestAfterTrap(g: Grid, dest: Pos, s: Search, a: Pos)
    requires ValidGrid(g) && Shaped(g, s) && a in g.waypoints && dest in g.waypoints && g.waypoints[a] == 1 && Diagonal(dest, a)
    requires forall m :: m in Neighbors(a) ==> m in g.waypoints
    requires {a, dest} <= s.way.Keys && s.way[a] == -3 && s.way[dest] == 0
    ensures var r := RelaxAll(g, s, a, Neighbors(a)); dest in r.way && r.way[dest] == 0
  {
    hide ValidGrid, RelaxAll;
    Unaffected(g, s, a, Neighbors(a), dest);
  }

  lemma NeighborsOnMap(g: Grid, q: Pos)
    requires ValidGrid(g) && InWindow(g, q)
    ensures forall m :: m in Neighbors(q) ==> m in g.waypoints
  {
    hide FitsInt;
  }

  /** Where a label can come from when two fields have been expanded. */
  lemma FromTwo(g: Grid, dest: Pos, s: Search, a: Pos, p: Pos)
    requires Core(g, dest, s, {dest, a}) && a in g.waypoints && a != dest && p in g.waypoints && Relevant(g, p) && p != dest
    ensures p in s.way && a in s.way && (p == a ==> s.way[p] != INT_MAX)
    ensures
      || s.way[p] == INT_MAX
      || (Adjacent(p, dest) && s.way[p] == StepCost(g, p, dest))
      || (Adjacent(p, a) && s.way[p] == s.way[a] + StepCost(g, p, a))
  {
    hide FitsInt, Estimate, Floor, Trapped, StepCost, Queue;
    assert Label(g, dest, s, {dest, a}, p);
  }

  lemma SecondLabels(g: Grid, dest: Pos, s: Search, b: Pos, n: Pos)
    requires Inv(g, dest, s, {dest, Sum(b, n)}) && Tie(g, dest, b, n) && g.waypoints[dest] == -1
    ensures ORIGIN in s.way && Third(g, b, n) in s.way && s.way[ORIGIN] == 0 && s.way[Third(g, b, n)] == -2
  {
    hide FitsInt, Estimate, Tie, Trapped, Floor, Sum, Later, Labels, Queue, AllSettled, StepCost, Adjacent, Diagonal;
    var a, t := Sum(b, n), Third(g, b, n);
    TieAdjacent(g, dest, b, n);
    TieFacts(g, dest, b, n);
    TieApart(g, dest, b, n);
    TieIsCross(g, dest, b, n);
    StraightFromTrap(b, n);
    FromTwo(g, dest, s, a, a);
    FromTwo(g, dest, s, a, ORIGIN);
    FromTwo(g, dest, s, a, t);
    UnitCost(g, ORIGIN, a);
    UnitCost(g, t, a);
    DestCosts(g, dest, b, a);
    NotAdjacentSelf(a);
    TrapSettled(g, dest, s, a, t);
  }

  lemma NotAdjacentSelf(p: Pos)
    ensures !Adjacent(p, p)
  {
  }

  lemma DestCosts(g: Grid, dest: Pos, b: Pos, a: Pos)
    requires dest in g.waypoints && g.waypoints[dest] == -1 && !Diagonal(dest, b) && Diagonal(dest, a)
    ensures StepCost(g, b, dest) == -1 && StepCost(g, a, dest) == -3
  {
  }

  /** What the expansion of the trap has done. */
  lemma TrapSettled(g: Grid, dest: Pos, s: Search, a: Pos, t: Pos)
    requires Inv(g, dest, s, {dest, a}) && a in g.waypoints && a != dest && g.waypoints[a] == 1 && a != ORIGIN
    requires {a, t, ORIGIN} <= s.way.Keys && s.way[a] in {-3, INT_MAX} && s.way[ORIGIN] in {0, INT_MAX}
    requires Adjacent(t, a) && Relevant(g, t) && Adjacent(ORIGIN, a)
    ensures s.way[a] == -3 && s.way[ORIGIN] <= -3 + StepCost(g, ORIGIN, a) && s.way[t] <= -3 + StepCost(g, t, a)
  {
    hide FitsInt, Estimate, Trapped, Floor, StepCost, Adjacent;
    assert Settled(g, dest, s, a);
    assert a in Window(g) && ORIGIN in g.waypoints && t in g.waypoints;
    assert Label(g, dest, s, {dest, a}, a);
  }

  /** Labels never get worse. */
  lemma ExpandImproves(g: Grid, dest: Pos, s: Search, closed: set<Pos>, p: Pos)
    requires Inv(g, dest, s, closed) && s.open != [] && p in g.waypoints
    ensures p in s.way && p in Expand(g, s).way && Expand(g, s).way[p] <= s.way[p]
  {
    hide FitsInt, Estimate, Queue, Labels, AllSettled, Relax, RelaxAll, StepCost, Adjacent;
    var q, s0 := s.open[0], s.(open := s.open[1..]);
    TakeFirst(g, dest, s, closed);
    if s.way[q] + g.waypoints[q] < s.way[ORIGIN] {
      NeighborsOnMap(g, q);
      RelaxAllKeeps(g, dest, s0, closed + {q}, q, Neighbors(q));
    }
  }

  /** What the third one does to the destination, or to the origin. */
  lemma ThirdExpansion(g: Grid, dest: Pos, s: Search, b: Pos, n: Pos)
    requires Inv(g, dest, s, {dest, Sum(b, n)}) && Tie(g, dest, b, n) && IsHead(s, Third(g, b, n), -1) && g.waypoints[dest] == -1
    requires {ORIGIN, Third(g, b, n), dest} <= s.way.Keys
    requires s.way[ORIGIN] == 0 && s.way[Third(g, b, n)] == -2 && s.way[dest] == 0
    ensures var r, t := Expand(g, s), Third(g, b, n);
      && Inv(g, dest, r, {dest, Sum(b, n), t}) && {ORIGIN, dest} <= r.way.Keys
      && if t == b then r.way[dest] < 0 else r.way[ORIGIN] < 0 && r.way[dest] == 0
  {
    hide FitsInt, Estimate, Tie, Trapped, Floor, Sum, StepCost, Relax, RelaxAll, Labels, AllSettled, Adjacent, Neighbors, Later, Queue;
    var t, s0, closed := Third(g, b, n), s.(open := s.open[1..]), {dest, Sum(b, n)};
    TieAdjacent(g, dest, b, n);
    TieApart(g, dest, b, n);
    ExpandKeeps(g, dest, s, closed);
    assert closed + {t} == {dest, Sum(b, n), t};
    TakeFirst(g, dest, s, closed);
    NeighborsOnMap(g, t);
    UnitCost(g, dest, t);
    UnitCost(g, ORIGIN, t);
    AfterThird(g, dest, s0, closed + {t}, t);
  }

  lemma AfterThird(g: Grid, dest: Pos, s: Search, closed: set<Pos>, t: Pos)
    requires Expanding(g, dest, s, closed, t) && t != dest && s.way[t] == -2 && g.waypoints[t] == 1
    requires forall m :: m in Neighbors(t) ==> m in g.waypoints
    requires ORIGIN in s.way && dest in s.way && s.way[dest] == 0
    ensures var r := RelaxAll(g, s, t, Neighbors(t));
      && {ORIGIN, dest} <= r.way.Keys
      && (Adjacent(dest, t) && !Diagonal(dest, t) ==> r.way[dest] < 0)
      && (Adjacent(ORIGIN, t) && !Diagonal(ORIGIN, t) ==> r.way[ORIGIN] < 0)
      && (!Adjacent(dest, t) ==> r.way[dest] == 0)
  {
    hide FitsInt, Estimate, Trapped, Floor, Relax, RelaxAll, Labels, Queue;
    RelaxAllKeeps(g, dest, s, closed, t, Neighbors(t));
    if !Adjacent(dest, t) {
      Unaffected(g, s, t, Neighbors(t), dest);
    }
  }

  // ---------------------------------------------------------- the rest of the search

  lemma {:induction false} FinishLowered(g: Grid, dest: Pos, s: Search, closed: set<Pos>)
    requires Inv(g, dest, s, closed) && dest in s.way && s.way[dest] < 0
    ensures dest in Finish(g, dest, s, closed).0.way && Finish(g, dest, s, closed).0.way[dest] < 0
    decreases Window(g) - closed
  {
    hide ValidGrid, Labels, Queue, AllSettled, Expand;
    if s.open != [] {
      ExpandKeeps(g, dest, s, closed);
      ExpandImproves(g, dest, s, closed, dest);
      FinishLowered(g, dest, Expand(g, s), closed + {s.open[0]});
    }
  }

  /** Once the origin is reached for less than nothing the destination is safe. */
  lemma CalmStays(g: Grid, dest: Pos, s: Search, closed: set<Pos>)
    requires Inv(g, dest, s, closed) && s.open != [] && {dest, ORIGIN} <= s.way.Keys && s.way[dest] == 0 && s.way[ORIGIN] < 0
    ensures var r := Expand(g, s); {dest, ORIGIN} <= r.way.Keys && r.way[dest] == 0 && r.way[ORIGIN] < 0
  {
    hide FitsInt, Labels, Queue, AllSettled, Relax, RelaxAll, StepCost;
    var q, s0 := s.open[0], s.(open := s.open[1..]);
    TakeFirst(g, dest, s, closed);
    ExpandImproves(g, dest, s, closed, ORIGIN);
    if s.way[q] + g.waypoints[q] < s.way[ORIGIN] {
      if Adjacent(dest, q) && s.way[q] + StepCost(g, dest, q) < 0 {
        assert q in s.open;
        LoweredKey(g, dest, s, closed, q);
      }
      NeighborsOnMap(g, q);
      Unaffected(g, s0, q, Neighbors(q), dest);
    }
  }

  lemma {:induction false} FinishCalm(g: Grid, dest: Pos, s: Search, closed: set<Pos>)
    requires Inv(g, dest, s, closed) && {dest, ORIGIN} <= s.way.Keys && s.way[dest] == 0 && s.way[ORIGIN] < 0
    ensures dest in Finish(g, dest, s, closed).0.way && Finish(g, dest, s, closed).0.way[dest] == 0
    decreases Window(g) - closed
  {
    hide ValidGrid, Labels, Queue, AllSettled, Expand;
    if s.open != [] {
      ExpandKeeps(g, dest, s, closed);
      CalmStays(g, dest, s, closed);
      FinishCalm(g, dest, Expand(g, s), closed + {s.open[0]});
    }
  }

  lemma {:induction false} FinishQuiet(g: Grid, dest: Pos, s: Search, closed: set<Pos>)
    requires Inv(g, dest, s, closed) && Quiet(g, dest, s)
    ensures Quiet(g, dest, Finish(g, dest, s, closed).0)
    decreases Window(g) - closed
  {
    hide ValidGrid, Labels, Queue, AllSettled, Expand, Quiet;
    if s.open != [] {
      ExpandKeeps(g, dest, s, closed);
      QuietStays(g, dest, s, closed);
      FinishQuiet(g, dest, Expand(g, s), closed + {s.open[0]});
    }
  }

  lemma FinishStep(g: Grid, dest: Pos, s: Search, closed: set<Pos>)
    requires Inv(g, dest, s, closed) && s.open != []
    ensures Inv(g, dest, Expand(g, s), closed + {s.open[0]})
    ensures Finish(g, dest, s, closed) == Finish(g, dest, Expand(g, s), closed + {s.open[0]})
  {
    ExpandKeeps(g, dest, s, closed);
  }

  lemma FinishDone(g: Grid, dest: Pos, s: Search, closed: set<Pos>)
    requires Inv(g, dest, s, closed) && s.open == []
    ensures Finish(g, dest, s, closed) == (s, closed)
  {
  }

  /** How a tie ends. */
  lemma TieEnds(g: Grid, dest: Pos, s: Search, b: Pos, n: Pos)
    requires Inv(g, dest, s, {}) && IsInitial(g, dest, s) && Tie(g, dest, b, n) && g.waypoints[dest] == -1
    ensures var r := Finish(g, dest, s, {}).0;
      dest in r.way && if Third(g, b, n) == b then r.way[dest] < 0 else r.way[dest] == 0
  {
    hide FitsInt, Tie, Labels, Queue, AllSettled, Expand, Sum, Finish, Third, ValidGrid, IsInitial;
    var a, t := Sum(b, n), Third(g, b, n);
    FirstExpansion(g, dest, s, b, n);
    InitialHead(g, dest, s);
    FinishStep(g, dest, s, {});
    var s1 := Expand(g, s);
    assert {} + {dest} == {dest};
    SecondExpansion(g, dest, s1, b, n);
    FinishStep(g, dest, s1, {dest});
    var s2 := Expand(g, s1);
    assert {dest} + {a} == {dest, a};
    ThirdExpansion(g, dest, s2, b, n);
    FinishStep(g, dest, s2, {dest, a});
    var s3 := Expand(g, s2);
    assert {dest, a} + {t} == {dest, a, t};
    if t == b {
      FinishLowered(g, dest, s3, {dest, a, t});
    } else {
      FinishCalm(g, dest, s3, {dest, a, t});
    }
  }

  lemma InitialHead(g: Grid, dest: Pos, s: Search)
    requires Shaped(g, s) && IsInitial(g, dest, s)
    ensures s.open == [dest]
  {
  }

  // ---------------------------------------------------------- when a trap springs

  /** The field beside the origin on the other side of a trap is expanded before the one in it. */
  ghost predicate Overtaken(g: Grid, dest: Pos) {
    exists b, n :: Tie(g, dest, b, n) && Third(g, b, n) == n
  }

  /** There is a trap, no way shorter than nothing outruns it, and it is not overtaken. */
  ghost predicate Springs(g: Grid, dest: Pos)
    requires dest in g.waypoints
  {
    Trapped(g, dest) && !Outrun(g, dest) && !Overtaken(g, dest)
  }

  /** A trap with a field beside the origin, of a destination that is not, makes a tie. */
  lemma TrapMakesTie(g: Grid, dest: Pos, a: Pos, b: Pos) returns (n: Pos)
    requires Trap(g, dest, a, b) && Distance(b) == 1 && !Adjacent(dest, ORIGIN) && dest != ORIGIN
    ensures Tie(g, dest, b, n)
  {
    hide Cross, Trap, Later, Sum, Difference, Opposite, Double, Distance, Adjacent;
    n := Difference(a, b);
    TrapCross(g, dest, a, b, n);
    SumBack(a, b, n);
    CrossTurned(b, n);
    SumTurned(b, n);
    SidesDiffer(b, n);
    if !Later(Sum(b, n), Difference(b, n)) && Trap(g, dest, Difference(b, n), b) {
      n := Opposite(n);
    }
  }

  lemma TrapCross(g: Grid, dest: Pos, a: Pos, b: Pos, n: Pos)
    requires Trap(g, dest, a, b) && Distance(b) == 1 && !Adjacent(dest, ORIGIN) && dest != ORIGIN
    requires n == Difference(a, b)
    ensures Cross(b, n) && dest == Double(b)
  {
    hide Cross, Double, Difference;
    DestIsTwice(g, dest, a, b);
    TrapCorner(g, dest, a, b);
    CornerIsCross(a, b);
  }

  lemma DestIsTwice(g: Grid, dest: Pos, a: Pos, b: Pos)
    requires Trap(g, dest, a, b) && Distance(b) == 1 && !Adjacent(dest, ORIGIN) && dest != ORIGIN
    ensures dest == Double(b) && ((b.y == 0 && (b.x == 1 || b.x == -1)) || (b.x == 0 && (b.y == 1 || b.y == -1)))
  {
    Near(b, dest);
    NotNear(dest);
    hide Adjacent;
    Straight(b.x, b.y, dest.x, dest.y);
    SamePos(dest, Double(b));
  }

  lemma TrapCorner(g: Grid, dest: Pos, a: Pos, b: Pos)
    requires Trap(g, dest, a, b) && dest == Double(b)
    requires (b.y == 0 && (b.x == 1 || b.x == -1)) || (b.x == 0 && (b.y == 1 || b.y == -1))
    ensures b.y == 0 ==> a.x == b.x && (a.y == 1 || a.y == -1)
    ensures b.x == 0 ==> a.y == b.y && (a.x == 1 || a.x == -1)
  {
    Near(a, b);
    Near(a, dest);
    hide Adjacent;
    Corner(b.x, b.y, a.x, a.y);
  }

  lemma CornerIsCross(a: Pos, b: Pos)
    requires (b.y == 0 && (b.x == 1 || b.x == -1)) || (b.x == 0 && (b.y == 1 || b.y == -1))
    requires b.y == 0 ==> a.x == b.x && (a.y == 1 || a.y == -1)
    requires b.x == 0 ==> a.y == b.y && (a.x == 1 || a.x == -1)
    ensures Cross(b, Difference(a, b))
  {
  }

  lemma NotNear(p: Pos)
    requires !Adjacent(p, ORIGIN) && p != ORIGIN
    ensures p.x < -1 || p.x > 1 || p.y < -1 || p.y > 1
  {
    SamePos(p, ORIGIN);
  }

  /** One straight step on from a field beside the origin, and not beside it. */
  lemma Straight(x: int, y: int, dx: int, dy: int)
    requires Abs(x) + Abs(y) == 1 && -1 <= x - dx <= 1 && -1 <= y - dy <= 1 && (x == dx || y == dy)
    requires dx < -1 || dx > 1 || dy < -1 || dy > 1
    ensures dx == 2 * x && dy == 2 * y
    ensures (y == 0 && (x == 1 || x == -1)) || (x == 0 && (y == 1 || y == -1))
  {
  }

  /** A field next to the one in between, and diagonal to where two steps lead. */
  lemma Corner(x: int, y: int, ax: int, ay: int)
    requires (y == 0 && (x == 1 || x == -1)) || (x == 0 && (y == 1 || y == -1))
    requires -1 <= ax - x <= 1 && -1 <= ay - y <= 1 && -1 <= ax - 2 * x <= 1 && -1 <= ay - 2 * y <= 1
    requires ax != 2 * x && ay != 2 * y
    ensures y == 0 ==> ax == x && (ay == 1 || ay == -1)
    ensures x == 0 ==> ay == y && (ax == 1 || ax == -1)
  {
  }

  lemma SumBack(a: Pos, b: Pos, n: Pos)
    requires n == Difference(a, b)
    ensures Sum(b, n) == a
  {
    SamePos(Sum(b, n), a);
  }

  function Opposite(n: Pos): Pos {
    Pos(-n.x, -n.y)
  }

  lemma CrossTurned(b: Pos, n: Pos)
    requires Cross(b, n)
    ensures Cross(b, Opposite(n))
  {
  }

  lemma SumTurned(b: Pos, n: Pos)
    ensures Sum(b, Opposite(n)) == Difference(b, n) && Difference(b, Opposite(n)) == Sum(b, n)
  {
  }

  lemma SidesDiffer(b: Pos, n: Pos)
    requires Cross(b, n)
    ensures Later(Difference(b, n), Sum(b, n)) || Later(Sum(b, n), Difference(b, n))
  {
    if n.x == 0 {
      Shifted(b.x, b.y, n.y);
    }
  }

  lemma Shifted(x: int, y: int, v: int)
    requires v == 1 || v == -1
    ensures y - v > y + v || y + v > y - v
  {
  }

  /** Beside the destination, the step to it outruns every trap. */
  lemma BesideOutruns(g: Grid, dest: Pos)
    requires IsDestination(g, dest) && g.waypoints[dest] == -1 && Adjacent(ORIGIN, dest)
    ensures Outrun(g, dest)
  {
    var path := [ORIGIN, dest];
    assert IsPath(g, dest, path);
    assert path[1..] == [dest];
    assert PathCost(g, path) == StepCost(g, ORIGIN, dest);
    forall a, b | Trap(g, dest, a, b) ensures PathCost(g, path) < Distance(b) - 2 {
      BeyondDest(g, dest, a, b);
    }
    assert Outruns(g, dest, path);
  }

  lemma BeyondDest(g: Grid, dest: Pos, a: Pos, b: Pos)
    requires Trap(g, dest, a, b) && Adjacent(ORIGIN, dest)
    ensures Distance(b) >= if Diagonal(ORIGIN, dest) then 1 else 2
  {
    NotOrigin(b);
    if !Diagonal(ORIGIN, dest) {
      StraightTwice(dest.x, dest.y, b.x, b.y);
    }
  }

  lemma StraightTwice(x: int, y: int, bx: int, b_y: int)
    requires -1 <= x <= 1 && -1 <= y <= 1 && (x == 0 || y == 0) && (x != 0 || y != 0)
    requires -1 <= bx - x <= 1 && -1 <= b_y - y <= 1 && (bx == x || b_y == y) && (bx != x || b_y != y) && (bx != 0 || b_y != 0)
    ensures Abs(bx) + Abs(b_y) >= 2
  {
  }

  /** A way shorter than nothing that no longer outruns a trap leads past a tie. */
  lemma SlowTie(g: Grid, dest: Pos, path: seq<Pos>) returns (b: Pos, n: Pos)
    requires IsDestination(g, dest) && g.waypoints[dest] == -1 && !Outrun(g, dest)
    requires IsPath(g, dest, path) && path[0] == ORIGIN && PathCost(g, path) < 0
    ensures Tie(g, dest, b, n)
  {
    assert !Outruns(g, dest, path);
    var a;
    a, b :| Trap(g, dest, a, b) && PathCost(g, path) >= Distance(b) - 2;
    NotOrigin(b);
    if Adjacent(ORIGIN, dest) {
      BesideOutruns(g, dest);
    }
    n := TrapMakesTie(g, dest, a, b);
  }

  /**
    After a search for whatever destination, the chain of predecessors ends there if
    and only if no trap springs.
  */
  lemma ChainEndsIff(g: Grid, dest: Pos, s: Search)
    requires ValidGrid(g) && IsDestination(g, dest) && Shaped(g, s) && IsInitial(g, dest, s)
    ensures Inv(g, dest, s, {})
    ensures var r := Finish(g, dest, s, {}).0;
      dest in r.pred && (r.pred[dest] == None <==> !Springs(g, dest))
  {
    InitialInv(g, dest, s);
    var (r, closed) := Finish(g, dest, s, {});
    hide FitsInt, IsInitial, Labels, Queue, AllSettled, Finish, Trapped, Outrun, Overtaken, IsDestination, ValidGrid;
    ChainEndsIffNoTrap(g, dest, r, closed);
    if Trapped(g, dest) {
      TrappedIsBlocked(g, dest);
      QuietInitially(g, dest, s);
      FinishQuiet(g, dest, s, {});
      DestOrPred(g, dest, r, closed);
      if !Outrun(g, dest) {
        if Overtaken(g, dest) {
          OvertakenIsSafe(g, dest, s);
        } else if r.way[ORIGIN] < 0 {
          TieSprings(g, dest, s, r, closed);
        }
      }
    }
  }

  lemma TrappedIsBlocked(g: Grid, dest: Pos)
    requires ValidGrid(g) && dest in g.waypoints && Trapped(g, dest)
    ensures g.waypoints[dest] == -1
  {
    hide FitsInt;
  }

  lemma QuietInitially(g: Grid, dest: Pos, s: Search)
    requires IsDestination(g, dest) && Shaped(g, s) && IsInitial(g, dest, s)
    ensures Quiet(g, dest, s)
  {
  }

  lemma DestOrPred(g: Grid, dest: Pos, s: Search, closed: set<Pos>)
    requires Core(g, dest, s, closed)
    ensures dest in s.pred && dest in s.way && (s.pred[dest] == None <==> s.way[dest] == 0)
    ensures s.way[dest] == 0 || s.way[dest] == -1
  {
    hide FitsInt, Queue, Label, Trapped;
    assert DestLabel(g, dest, s, closed);
  }

  lemma OvertakenIsSafe(g: Grid, dest: Pos, s: Search)
    requires Inv(g, dest, s, {}) && IsInitial(g, dest, s) && g.waypoints[dest] == -1 && Overtaken(g, dest)
    ensures dest in Finish(g, dest, s, {}).0.way && Finish(g, dest, s, {}).0.way[dest] == 0
  {
    hide Tie, Third, Inv, Finish;
    var b, n :| Tie(g, dest, b, n) && Third(g, b, n) == n;
    TieEnds(g, dest, s, b, n);
    TieAdjacent(g, dest, b, n);
  }

  lemma TieSprings(g: Grid, dest: Pos, s: Search, r: Search, closed: set<Pos>)
    requires Inv(g, dest, s, {}) && IsInitial(g, dest, s) && (r, closed) == Finish(g, dest, s, {}) && g.waypoints[dest] == -1
    requires !Outrun(g, dest) && !Overtaken(g, dest) && ORIGIN in r.way && r.way[ORIGIN] < 0
    ensures dest in r.way && r.way[dest] < 0
  {
    hide FitsInt, IsInitial, Labels, Queue, AllSettled, Finish, Trapped, Outrun, Tie, Third, IsPath, Chain, PathCost;
    SearchIsOptimal(g, dest, r, closed);
    assert IsDestination(g, dest);
    var b, n := SlowTie(g, dest, Chain(g, dest, r, closed, ORIGIN));
    TieEnds(g, dest, s, b, n);
    ThirdIs(g, b, n);
  }

  lemma ThirdIs(g: Grid, b: Pos, n: Pos)
    ensures Third(g, b, n) == b || Third(g, b, n) == n
  {
  }
}
