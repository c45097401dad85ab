/**
  What every step of the path finder keeps, and what the search has found when
  its expand list is empty.
*/
module ShortwayProof {
  import opened Common
  import opened ShortwayModel

  // ---------------------------------------------------------------- invariant

  /** Fields whose labels mean something: others are never expanded. */
  predicate Relevant(g: Grid, p: Pos) {
    InWindow(g, p) && (p == ORIGIN || Walkable(g, p))
  }

  /** How much less than zero a label may be: a blocked destination is entered at a
      cost of -1, or -3 diagonally, and every further field costs at least 1. */
  ghost function Floor(g: Grid, dest: Pos, p: Pos): int
    requires dest in g.waypoints && p in g.waypoints
  {
    if g.waypoints[dest] > 0 then 0
    else if Adjacent(p, dest) then
      if Diagonal(p, dest) then -3
      else if p != ORIGIN && g.waypoints[p] == 1 && !Trapped(g, dest) then -1
      else -2
    else if Chebyshev(p, dest) <= 3 then Chebyshev(p, dest) - 4
    else 0
  }

  /** The length from which a field is relaxed; the destination is expanded first,
      whatever label it gets later. */
  function Base(s: Search, dest: Pos, q: Pos): int
    requires q in s.way
  {
    if q == dest then 0 else s.way[q]
  }

  /** The label of one field other than the destination. */
  ghost predicate Label(g: Grid, dest: Pos, s: Search, closed: set<Pos>, p: Pos)
    requires ValidGrid(g) && Shaped(g, s) && p in g.waypoints && dest in g.waypoints
  {
    if s.way[p] == INT_MAX then s.key[p] == INT_MAX && p !in s.open && p !in closed
    else
      && Floor(g, dest, p) <= s.way[p] <= Bound(g, |closed|)
      && s.pred[p].Some?
      && var q := s.pred[p].value;
         && q in closed && q in g.waypoints && Adjacent(p, q)
         && s.way[p] == Base(s, dest, q) + StepCost(g, p, q)
         && (p != ORIGIN ==> s.key[p] == s.way[p] + Estimate(g, p) && (p in s.open || p in closed))
  }

  /** The destination has no predecessor, unless a trap has lowered its label. */
  ghost predicate DestLabel(g: Grid, dest: Pos, s: Search, closed: set<Pos>)
    requires ValidGrid(g) && Shaped(g, s) && dest in g.waypoints
  {
    && s.key[dest] == INT_MAX
    && if s.way[dest] == 0 then s.pred[dest] == None
       else
         && Trapped(g, dest) && s.way[dest] == -1 && s.pred[dest].Some?
         && var q := s.pred[dest].value;
            q != dest && q in closed && q in g.waypoints && s.way[q] < INT_MAX && Adjacent(dest, q)
  }

  ghost predicate Labels(g: Grid, dest: Pos, s: Search, closed: set<Pos>)
    requires ValidGrid(g) && Shaped(g, s) && dest in g.waypoints
  {
    && DestLabel(g, dest, s, closed)
    && (forall p {:trigger Label(g, dest, s, closed, p)} ::
          p in g.waypoints && Relevant(g, p) && p != dest ==> Label(g, dest, s, closed, p))
  }

  ghost predicate Sorted(open: seq<Pos>, key: map<Pos, int>)
    requires forall i :: 0 <= i < |open| ==> open[i] in key
  {
    forall i, j :: 0 <= i < j < |open| ==> key[open[i]] <= key[open[j]]
  }

  /** The expand list is sorted and free of duplicates, and no field in it has a
      smaller key than one that has already been expanded. */
  ghost predicate Queue(g: Grid, dest: Pos, s: Search, closed: set<Pos>)
    requires ValidGrid(g) && Shaped(g, s) && dest in g.waypoints
  {
    && Distinct(s.open) && Sorted(s.open, s.key)
    && (forall p :: p in s.open ==> p !in closed && p != ORIGIN)
    && ORIGIN !in closed
    && (forall p :: p in closed && p != dest ==> Walkable(g, p))
    && if closed == {} then s.open == [dest]
       else
         && dest in closed
         && (forall p :: p in s.open ==> Walkable(g, p))
         && (forall p, o :: p in closed && p != dest && o in s.open ==> s.key[p] <= s.key[o])
  }

  /** Nothing can be gained from expanding `q` once more. */
  ghost predicate Settled(g: Grid, dest: Pos, s: Search, q: Pos)
    requires ValidGrid(g) && Shaped(g, s) && q in g.waypoints
  {
    || (q != dest && s.way[q] + g.waypoints[q] >= s.way[ORIGIN])
    || (forall m :: m in g.waypoints && Adjacent(m, q) && (Relevant(g, m) || m == dest) ==>
          s.way[m] <= Base(s, dest, q) + StepCost(g, m, q))
  }

  ghost predicate AllSettled(g: Grid, dest: Pos, s: Search, qs: set<Pos>)
    requires ValidGrid(g) && Shaped(g, s)
  {
    forall q {:trigger Settled(g, dest, s, q)} :: q in qs && q in g.waypoints ==> Settled(g, dest, s, q)
  }

  /** What every relaxation keeps. */
  ghost predicate Core(g: Grid, dest: Pos, s: Search, closed: set<Pos>) {
    && ValidGrid(g) && Shaped(g, s) && IsDestination(g, dest)
    && closed <= Window(g)
    && Labels(g, dest, s, closed)
    && Queue(g, dest, s, closed)
  }

  /** The invariant of the search; `closed` holds the fields expanded so far. */
  ghost predicate Inv(g: Grid, dest: Pos, s: Search, closed: set<Pos>) {
    Core(g, dest, s, closed) && AllSettled(g, dest, s, closed)
  }

  lemma InitialInv(g: Grid, dest: Pos, s: Search)
    requires ValidGrid(g) && IsDestination(g, dest) && Shaped(g, s) && IsInitial(g, dest, s)
    ensures Inv(g, dest, s, {})
  {
    hide FitsInt, Estimate, StepCost;
  }

  // ------------------------------------------------------------- list lemmas

  lemma {:induction false} RemoveDistinct(open: seq<Pos>, m: Pos)
    requires Distinct(open)
    ensures Distinct(Remove(open, m))
    ensures forall p :: p in Remove(open, m) <==> p in open && p != m
  {
    if open != [] {
      assert open == [open[0]] + open[1..];
      if open[0] != m {
        RemoveDistinct(open[1..], m);
        assert open[0] !in open[1..];
      }
    }
  }

  lemma {:induction false} RemoveSorted(open: seq<Pos>, key: map<Pos, int>, m: Pos)
    requires forall i :: 0 <= i < |open| ==> open[i] in key
    requires Sorted(open, key)
    ensures forall i :: 0 <= i < |Remove(open, m)| ==> Remove(open, m)[i] in key
    ensures Sorted(Remove(open, m), key)
  {
    if open != [] && open[0] != m {
      RemoveSorted(open[1..], key, m);
      var r := Remove(open[1..], m);
      assert forall i :: 0 <= i < |r| ==> r[i] in open[1..];
    }
  }

  lemma {:induction false} InsertDistinct(open: seq<Pos>, key: map<Pos, int>, m: Pos)
    requires m in key && forall i :: 0 <= i < |open| ==> open[i] in key
    requires Distinct(open) && m !in open
    ensures Distinct(Insert(open, key, m))
  {
    if open != [] && key[open[0]] < key[m] {
      InsertDistinct(open[1..], key, m);
      var r := Insert(open[1..], key, m);
      assert forall i :: 0 <= i < |r| ==> r[i] in r;
    }
  }

  lemma {:induction false} InsertSorted(open: seq<Pos>, key: map<Pos, int>, m: Pos)
    requires m in key && forall i :: 0 <= i < |open| ==> open[i] in key
    requires Sorted(open, key)
    ensures forall i :: 0 <= i < |Insert(open, key, m)| ==> Insert(open, key, m)[i] in key
    ensures Sorted(Insert(open, key, m), key)
  {
    if open != [] && key[open[0]] < key[m] {
      InsertSorted(open[1..], key, m);
      var r := Insert(open[1..], key, m);
      assert forall i :: 0 <= i < |r| ==> r[i] in r;
      assert forall i :: 0 <= i < |r| ==> r[i] == m || r[i] in open[1..];
    }
  }

  lemma InsertDistinctSorted(open: seq<Pos>, key: map<Pos, int>, m: Pos)
    requires m in key && forall i :: 0 <= i < |open| ==> open[i] in key
    requires Distinct(open) && Sorted(open, key) && m !in open
    ensures forall i :: 0 <= i < |Insert(open, key, m)| ==> Insert(open, key, m)[i] in key
    ensures Distinct(Insert(open, key, m)) && Sorted(Insert(open, key, m), key)
  {
    InsertDistinct(open, key, m);
    InsertSorted(open, key, m);
  }

  // ------------------------------------------------------ consistent estimates

  lemma ScaledGap(k: int, a: int, b: int, gap: int)
    requires 0 <= k && b <= a + gap
    ensures k * (b - 1) <= k * (a - 1) + k * gap
  {
    assert k * (b - 1) <= k * (a + gap - 1);
  }

  /** The key of a field never drops below the key of the field it is reached from. */
  lemma Consistent(g: Grid, q: Pos, m: Pos)
    requires ValidGrid(g) && Walkable(g, q) && Walkable(g, m) && Adjacent(m, q)
    ensures StepCost(g, m, q) + Estimate(g, m) >= Estimate(g, q)
  {
    ScaledGap(g.min, Distance(m), Distance(q), if Diagonal(m, q) then 2 else 1);
  }

  lemma Monotone(k: int, a: int, b: int)
    requires 0 <= k && a <= b
    ensures k * a <= k * b
  {
  }

  lemma ScaledSum(cap: int, n: int, r: int, min: int, w: int, d: int, limit: int)
    requires 0 <= n && 0 <= cap && 2 <= r && 3 * cap * (n + r) < limit
    requires 1 <= min <= w <= cap && 0 <= d <= r - 1
    ensures 3 * cap * (n + 1) + (w + min * d) < limit
  {
    Monotone(d, min, cap);
    Monotone(cap, d, r - 1);
    Monotone(cap, 2, r);
    var cn, cr, md := cap * n, cap * r, min * d;
    assert cap * (r - 1) == cr - cap;
    assert 3 * cap * (n + r) == 3 * cn + 3 * cr;
    assert 3 * cap * (n + 1) == 3 * cn + 3 * cap;
  }

  lemma {:induction false} BoundIsProduct(g: Grid, n: nat)
    ensures Bound(g, n) == 3 * g.max * n
  {
    if n > 0 {
      BoundIsProduct(g, n - 1);
    }
  }

  /** The window has (2 visX + 1) (2 visY + 1) fields. */
  lemma WindowSize(g: Grid)
    requires 1 <= g.visX && 1 <= g.visY
    requires forall p :: p in g.waypoints <==> InMap(g, p)
    ensures |Window(g)| == (2 * g.visX + 1) * (2 * g.visY + 1)
  {
    Columns(-g.visX, g.visX + 1, -g.visY, g.visY + 1);
    assert Window(g) == Box(-g.visX, g.visX + 1, -g.visY, g.visY + 1);
  }

  ghost function Box(x0: int, x1: int, y0: int, y1: int): set<Pos> {
    set x, y | x0 <= x < x1 && y0 <= y < y1 :: Pos(x, y)
  }

  lemma {:induction false} Columns(x0: int, x1: int, y0: int, y1: int)
    requires x0 <= x1 && y0 <= y1
    ensures |Box(x0, x1, y0, y1)| == (x1 - x0) * (y1 - y0)
    decreases x1 - x0
  {
    if x0 < x1 {
      Columns(x0, x1 - 1, y0, y1);
      Cells(x1 - 1, y0, y1);
      assert Box(x0, x1, y0, y1) == Box(x0, x1 - 1, y0, y1) + Box(x1 - 1, x1, y0, y1);
      assert (x1 - x0) * (y1 - y0) == (x1 - 1 - x0) * (y1 - y0) + (y1 - y0);
    } else {
      assert Box(x0, x1, y0, y1) == {};
    }
  }

  lemma {:induction false} Cells(x: int, y0: int, y1: int)
    requires y0 <= y1
    ensures |Box(x, x + 1, y0, y1)| == y1 - y0
    decreases y1 - y0
  {
    if y0 < y1 {
      Cells(x, y0, y1 - 1);
      assert Box(x, x + 1, y0, y1) == Box(x, x + 1, y0, y1 - 1) + {Pos(x, y1 - 1)};
    } else {
      assert Box(x, x + 1, y0, y1) == {};
    }
  }

  /** Costs of up to INT_MAX / (3 * (fields + visX + visY)) cause no overflow. */
  lemma SmallCostsFit(g: Grid)
    requires 1 <= g.visX && 1 <= g.visY && 1 <= g.min <= g.max
    requires forall p :: p in g.waypoints ==> g.waypoints[p] == -1 || g.min <= g.waypoints[p] <= g.max
    requires 3 * g.max * (|Window(g)| + g.visX + g.visY) < INT_MAX
    ensures 0 <= g.max && FitsInt(g)
  {
    var n, r := |Window(g)|, g.visX + g.visY;
    BoundIsProduct(g, n + 1);
    Monotone(3 * g.max, n + 1, n + r);
    forall p | p in g.waypoints && InWindow(g, p) && p != ORIGIN && Walkable(g, p)
      ensures Bound(g, n + 1) + Estimate(g, p) < INT_MAX
    {
      ScaledSum(g.max, n, r, g.min, g.waypoints[p], Distance(p) - 1, INT_MAX);
    }
  }

  lemma {:induction false} BoundGrows(g: Grid, a: nat, b: nat)
    requires a <= b && 0 <= g.max
    ensures Bound(g, a) <= Bound(g, b)
    decreases b
  {
    if a < b {
      BoundGrows(g, a, b - 1);
    }
  }

  /** Labels and keys stay below INT_MAX. */
  lemma LabelBound(g: Grid, closed: set<Pos>, p: Pos)
    requires ValidGrid(g) && closed <= Window(g) && InWindow(g, p) && p in g.waypoints
    ensures Bound(g, |closed|) + 3 * g.max < INT_MAX
    ensures p != ORIGIN && Walkable(g, p) ==> Bound(g, |closed|) + Estimate(g, p) < INT_MAX
  {
    SubsetSize(closed, Window(g));
    BoundGrows(g, |closed|, |Window(g)|);
    assert Bound(g, |Window(g)| + 1) == Bound(g, |Window(g)|) + 3 * g.max;
  }

  // ------------------------------------------------------------ one relaxation

  /** The invariant while `q`, the field taken last, is being expanded. */
  ghost predicate Expanding(g: Grid, dest: Pos, s: Search, closed: set<Pos>, q: Pos) {
    && Core(g, dest, s, closed)
    && q in closed && q in g.waypoints
    && (q == dest ==> closed == {dest})
    && s.way[q] <= Bound(g, |closed| - 1)
    && (q != dest ==> forall p :: p in closed && p != dest ==> s.key[p] <= s.key[q])
  }

  /** The destination is expanded from length 0. */
  lemma FromBase(g: Grid, dest: Pos, s: Search, closed: set<Pos>, q: Pos)
    requires Expanding(g, dest, s, closed, q)
    ensures s.way[q] == Base(s, dest, q)
  {
    hide Queue, FitsInt, Trapped;
    assert DestLabel(g, dest, s, closed);
  }

  /** No step from a field leads below the floor of its neighbour. */
  lemma FloorStep(g: Grid, dest: Pos, q: Pos, m: Pos, length: int)
    requires ValidGrid(g) && IsDestination(g, dest) && q in g.waypoints && m in g.waypoints && Adjacent(m, q)
    requires if q == dest then length == 0 else q != ORIGIN && g.waypoints[q] >= 1 && length >= Floor(g, dest, q)
    ensures m != dest ==> Floor(g, dest, m) <= length + StepCost(g, m, q)
    ensures m == dest ==> length + StepCost(g, m, q) >= if Trapped(g, dest) then -1 else 0
  {
    hide FitsInt;
    if g.waypoints[dest] <= 0 && Adjacent(q, dest) && Adjacent(m, dest) {
      assert Trap(g, dest, q, m) || !(Trap(g, dest, q, m));
    }
  }

  lemma StepBounds(g: Grid, dest: Pos, s: Search, closed: set<Pos>, q: Pos, m: Pos)
    requires Expanding(g, dest, s, closed, q) && m in g.waypoints && Adjacent(m, q)
    ensures m != dest ==> Floor(g, dest, m) <= s.way[q] + StepCost(g, m, q)
    ensures s.way[q] + StepCost(g, m, q) <= Bound(g, |closed|)
    ensures m == dest ==> s.way[q] + StepCost(g, m, q) >= if Trapped(g, dest) then -1 else 0
  {
    hide Floor, Trapped;
    assert q in Window(g);
    FromBase(g, dest, s, closed, q);
    if q != dest {
      assert Label(g, dest, s, closed, q);
    }
    FloorStep(g, dest, q, m, s.way[q]);
  }

  /** A field that has been expanded is never improved, but for the destination. */
  lemma ClosedStays(g: Grid, dest: Pos, s: Search, closed: set<Pos>, q: Pos, m: Pos)
    requires Expanding(g, dest, s, closed, q) && m in closed && Adjacent(m, q) && m != dest
    ensures m in g.waypoints && s.way[q] + StepCost(g, m, q) >= s.way[m]
  {
    hide Floor, Trapped;
    assert m in Window(g);
    assert q in Window(g);
    StepBounds(g, dest, s, closed, q, m);
    assert Label(g, dest, s, closed, m);
    assert Label(g, dest, s, closed, q);
    Consistent(g, q, m);
  }

  /** The expand list without `m`: the removal loop always finds a field that has a key. */
  function Without(s: Search, m: Pos): (r: seq<Pos>)
    requires m in s.key
  {
    if s.key[m] != INT_MAX then Remove(s.open, m) else s.open
  }

  lemma WithoutIsList(g: Grid, dest: Pos, s: Search, closed: set<Pos>, m: Pos)
    requires Core(g, dest, s, closed) && m in g.waypoints && InWindow(g, m) && Walkable(g, m)
    requires m != ORIGIN && m != dest && m !in closed
    ensures forall i :: 0 <= i < |Without(s, m)| ==> Without(s, m)[i] in s.key
    ensures m !in Without(s, m) && Distinct(Without(s, m)) && Sorted(Without(s, m), s.key)
    ensures forall p :: p in Without(s, m) <==> p in s.open && p != m
    ensures s.key[m] != INT_MAX <==> m in s.open
  {
    assert Label(g, dest, s, closed, m);
    LabelBound(g, closed, m);
    if s.key[m] != INT_MAX {
      RemoveDistinct(s.open, m);
      RemoveSorted(s.open, s.key, m);
    }
  }

  /** Changing the key of a field that is not in the list keeps the list sorted. */
  lemma SortedFrame(open: seq<Pos>, key: map<Pos, int>, m: Pos, k: int)
    requires forall i :: 0 <= i < |open| ==> open[i] in key
    requires Sorted(open, key) && m !in open
    ensures Sorted(open, key[m := k])
  {
    assert forall i :: 0 <= i < |open| ==> open[i] in open;
  }

  lemma RelaxedKey(g: Grid, dest: Pos, s: Search, closed: set<Pos>, q: Pos, m: Pos)
    requires Expanding(g, dest, s, closed, q) && m in g.waypoints && Adjacent(m, q) && Walkable(g, m)
    ensures forall p :: p in closed && p != dest ==>
      s.key[p] <= s.way[q] + StepCost(g, m, q) + Estimate(g, m)
  {
    hide Estimate, StepCost, FitsInt;
    if q != dest {
      assert q in Window(g);
      assert Label(g, dest, s, closed, q);
      Consistent(g, q, m);
    }
  }

  /** Putting `m` back into the list with a key that no expanded field exceeds. */
  lemma Requeue(g: Grid, dest: Pos, s: Search, r: Search, closed: set<Pos>, open: seq<Pos>, m: Pos, k: int)
    requires ValidGrid(g) && Shaped(g, s) && Shaped(g, r) && dest in g.waypoints && m in g.waypoints
    requires Queue(g, dest, s, closed) && closed != {} && m !in closed && m != ORIGIN && Walkable(g, m)
    requires forall p :: p in closed && p != dest ==> s.key[p] <= k
    requires forall i :: 0 <= i < |open| ==> open[i] in s.key
    requires m !in open && Distinct(open) && Sorted(open, s.key)
    requires forall p :: p in open <==> p in s.open && p != m
    requires r.key == s.key[m := k] && r.open == Insert(open, r.key, m)
    ensures Queue(g, dest, r, closed)
    ensures forall p :: p in r.open <==> p in s.open || p == m
  {
    SortedFrame(open, s.key, m, k);
    InsertDistinctSorted(open, r.key, m);
  }

  /** What an improving relaxation changes. */
  lemma RelaxedFields(g: Grid, s: Search, q: Pos, m: Pos)
    requires ValidGrid(g) && Shaped(g, s) && q in g.waypoints && m in g.waypoints
    requires s.way[q] + StepCost(g, m, q) < s.way[m]
    ensures var r := Relax(g, s, q, m);
      && r.way == s.way[m := s.way[q] + StepCost(g, m, q)]
      && r.pred == s.pred[m := Some(q)]
      && (m == ORIGIN || g.waypoints[m] == -1 ==> r.key == s.key && r.open == s.open)
  {
    hide FitsInt, Estimate, StepCost, InMap, InWindow, Insert, Remove;
  }

  /** What it does to the expand list. */
  lemma RelaxedList(g: Grid, s: Search, q: Pos, m: Pos)
    requires ValidGrid(g) && Shaped(g, s) && q in g.waypoints && m in g.waypoints
    requires m != ORIGIN && g.waypoints[m] != -1 && s.way[q] + StepCost(g, m, q) < s.way[m]
    requires forall i :: 0 <= i < |Without(s, m)| ==> Without(s, m)[i] in s.key
    ensures var r := Relax(g, s, q, m);
      && r.key == s.key[m := s.way[q] + StepCost(g, m, q) + Estimate(g, m)]
      && r.open == Insert(Without(s, m), r.key, m)
  {
    hide FitsInt, Estimate, StepCost, InMap, InWindow, Insert, Remove;
  }

  /** Only a trap improves a field that has been expanded, and only the destination. */
  lemma ImprovedIsNew(g: Grid, dest: Pos, s: Search, closed: set<Pos>, q: Pos, m: Pos)
    requires Expanding(g, dest, s, closed, q) && m in g.waypoints && Adjacent(m, q)
    requires s.way[q] + StepCost(g, m, q) < s.way[m]
    ensures m != dest ==> m !in closed
    ensures m == dest ==>
      Trapped(g, dest) && s.way[dest] == 0 && s.way[q] + StepCost(g, m, q) == -1 && g.waypoints[m] == -1
  {
    hide Queue, Floor, FitsInt;
    StepBounds(g, dest, s, closed, q, m);
    assert DestLabel(g, dest, s, closed);
    if m in closed && m != dest {
      ClosedStays(g, dest, s, closed, q, m);
    }
  }

  lemma RelaxQueue(g: Grid, dest: Pos, s: Search, closed: set<Pos>, q: Pos, m: Pos)
    requires Expanding(g, dest, s, closed, q) && m in g.waypoints && Adjacent(m, q)
    requires m != ORIGIN && g.waypoints[m] != -1 && s.way[q] + StepCost(g, m, q) < s.way[m]
    ensures Queue(g, dest, Relax(g, s, q, m), closed)
    ensures forall p :: p in Relax(g, s, q, m).open <==> p in s.open || p == m
    ensures Relax(g, s, q, m).key == s.key[m := s.way[q] + StepCost(g, m, q) + Estimate(g, m)]
  {
    hide Estimate, StepCost, Relax, FitsInt, Labels, Trapped, Insert, Sorted, Distinct;
    ImprovedIsNew(g, dest, s, closed, q, m);
    WithoutIsList(g, dest, s, closed, m);
    RelaxedList(g, s, q, m);
    RelaxedKey(g, dest, s, closed, q, m);
    var k := s.way[q] + StepCost(g, m, q) + Estimate(g, m);
    Requeue(g, dest, s, Relax(g, s, q, m), closed, Without(s, m), m, k);
  }

  /** The label of a field other than the relaxed one. */
  lemma OtherLabel(g: Grid, dest: Pos, s: Search, r: Search, closed: set<Pos>, m: Pos, p: Pos)
    requires ValidGrid(g) && Shaped(g, s) && Shaped(g, r) && p in g.waypoints && dest in g.waypoints
    requires Label(g, dest, s, closed, p) && p != m && (m !in closed || m == dest)
    requires forall x :: x in g.waypoints && x != m ==> r.way[x] == s.way[x]
    requires r.pred[p] == s.pred[p] && r.key[p] == s.key[p] && (p in r.open <==> p in s.open)
    ensures Label(g, dest, r, closed, p)
  {
  }

  /** The label of the relaxed field. */
  lemma NewLabel(g: Grid, dest: Pos, s: Search, r: Search, closed: set<Pos>, q: Pos, m: Pos)
    requires ValidGrid(g) && Shaped(g, s) && Shaped(g, r) && dest in g.waypoints && m in g.waypoints && q in g.waypoints
    requires m !in closed && q in closed && Adjacent(m, q) && s.way[q] == Base(s, dest, q)
    requires r.way == s.way[m := s.way[q] + StepCost(g, m, q)] && r.pred[m] == Some(q)
    requires Floor(g, dest, m) <= s.way[q] + StepCost(g, m, q) <= Bound(g, |closed|) < INT_MAX
    requires m != ORIGIN ==> r.key[m] == s.way[q] + StepCost(g, m, q) + Estimate(g, m) && m in r.open
    ensures Label(g, dest, r, closed, m)
  {
    hide Estimate, StepCost, FitsInt, Bound;
  }

  lemma SameQueue(g: Grid, dest: Pos, s: Search, r: Search, closed: set<Pos>)
    requires ValidGrid(g) && Shaped(g, s) && Shaped(g, r) && dest in g.waypoints
    requires Queue(g, dest, s, closed) && r.key == s.key && r.open == s.open
    ensures Queue(g, dest, r, closed)
  {
  }

  /** The label of the destination, when a trap lowers it or another field is relaxed. */
  lemma NewDestLabel(g: Grid, dest: Pos, s: Search, r: Search, closed: set<Pos>, q: Pos, m: Pos)
    requires ValidGrid(g) && Shaped(g, s) && Shaped(g, r) && dest in g.waypoints && m in g.waypoints && q in g.waypoints
    requires DestLabel(g, dest, s, closed) && q in closed && Adjacent(m, q) && r.key[dest] == s.key[dest]
    requires r.way == s.way[m := s.way[q] + StepCost(g, m, q)] && r.pred == s.pred[m := Some(q)]
    requires s.way[q] + StepCost(g, m, q) < s.way[m] && s.way[q] < INT_MAX
    requires m == dest ==> Trapped(g, dest) && s.way[q] + StepCost(g, m, q) == -1
    ensures DestLabel(g, dest, r, closed)
  {
    hide StepCost, FitsInt, Trapped;
  }

  lemma RelaxLabels(g: Grid, dest: Pos, s: Search, closed: set<Pos>, q: Pos, m: Pos)
    requires Expanding(g, dest, s, closed, q) && m in g.waypoints && Adjacent(m, q)
    requires s.way[q] + StepCost(g, m, q) < s.way[m]
    ensures Queue(g, dest, Relax(g, s, q, m), closed)
    ensures Labels(g, dest, Relax(g, s, q, m), closed)
  {
    hide Estimate, StepCost, Queue, FitsInt, Relax, Label, DestLabel, Floor, Trapped;
    var r := Relax(g, s, q, m);
    ImprovedIsNew(g, dest, s, closed, q, m);
    RelaxedFields(g, s, q, m);
    StepBounds(g, dest, s, closed, q, m);
    FromBase(g, dest, s, closed, q);
    if m != ORIGIN && g.waypoints[m] != -1 {
      RelaxQueue(g, dest, s, closed, q, m);
    } else {
      SameQueue(g, dest, s, r, closed);
    }
    assert q in Window(g);
    LabelBound(g, closed, q);
    NewDestLabel(g, dest, s, r, closed, q, m);
    assert Labels(g, dest, s, closed);
    forall p | p in g.waypoints && Relevant(g, p) && p != dest
      ensures Label(g, dest, r, closed, p)
    {
      if p == m {
        LabelBound(g, closed, m);
        NewLabel(g, dest, s, r, closed, q, m);
      } else {
        OtherLabel(g, dest, s, r, closed, m, p);
      }
    }
  }

  lemma RelaxNothing(g: Grid, s: Search, q: Pos, m: Pos)
    requires ValidGrid(g) && Shaped(g, s) && q in g.waypoints && m in g.waypoints
    requires s.way[q] + StepCost(g, m, q) >= s.way[m]
    ensures Relax(g, s, q, m) == s
  {
  }

  lemma RelaxCore(g: Grid, dest: Pos, s: Search, closed: set<Pos>, q: Pos, m: Pos)
    requires Expanding(g, dest, s, closed, q) && m in g.waypoints && Adjacent(m, q)
    ensures Expanding(g, dest, Relax(g, s, q, m), closed, q)
  {
    hide Queue, Labels, Estimate, StepCost, FitsInt, Relax;
    if s.way[q] + StepCost(g, m, q) < s.way[m] {
      RelaxLabels(g, dest, s, closed, q, m);
      ImprovedIsNew(g, dest, s, closed, q, m);
      RelaxedFields(g, s, q, m);
      if m != ORIGIN && g.waypoints[m] != -1 {
        RelaxQueue(g, dest, s, closed, q, m);
      }
    } else {
      RelaxNothing(g, s, q, m);
    }
  }

  /** No label of `r` is worse than in `s`, and those of expanded fields are the same. */
  ghost predicate NoWorse(g: Grid, s: Search, r: Search, closed: set<Pos>)
    requires Shaped(g, s) && Shaped(g, r)
  {
    && (forall p :: p in g.waypoints ==> r.way[p] <= s.way[p])
    && (forall p :: p in closed && p in g.waypoints ==> r.way[p] == s.way[p])
  }

  lemma NoWorseSelf(g: Grid, s: Search, closed: set<Pos>)
    requires Shaped(g, s)
    ensures NoWorse(g, s, s, closed)
  {
  }

  lemma NoWorseTransitive(g: Grid, s: Search, r: Search, t: Search, closed: set<Pos>, m: Pos)
    requires Shaped(g, s) && Shaped(g, r) && Shaped(g, t) && NoWorse(g, s, r, closed) && NoWorse(g, r, t, closed)
    requires m in g.waypoints
    ensures NoWorse(g, s, t, closed) && m in t.way && m in r.way && t.way[m] <= r.way[m]
  {
  }

  /** Labels only ever improve, and never that of an expanded field. */
  lemma RelaxImproves(g: Grid, s: Search, q: Pos, m: Pos, closed: set<Pos>)
    requires ValidGrid(g) && Shaped(g, s) && q in g.waypoints && m in g.waypoints
    requires s.way[q] + StepCost(g, m, q) < s.way[m] ==> m !in closed
    ensures NoWorse(g, s, Relax(g, s, q, m), closed)
    ensures Relax(g, s, q, m).way[m] <= s.way[q] + StepCost(g, m, q)
  {
    hide ValidGrid, StepCost, Relax;
    if s.way[q] + StepCost(g, m, q) < s.way[m] {
      RelaxedFields(g, s, q, m);
    } else {
      RelaxNothing(g, s, q, m);
    }
  }

  lemma SettledStays(g: Grid, dest: Pos, s: Search, r: Search, qs: set<Pos>)
    requires ValidGrid(g) && Shaped(g, s) && Shaped(g, r) && AllSettled(g, dest, s, qs)
    requires NoWorse(g, s, r, qs - {dest})
    ensures AllSettled(g, dest, r, qs)
  {
    hide FitsInt, StepCost;
    forall q | q in qs && q in g.waypoints ensures Settled(g, dest, r, q) {
      assert Settled(g, dest, s, q);
    }
  }

  lemma RelaxOne(g: Grid, dest: Pos, s: Search, closed: set<Pos>, q: Pos, m: Pos)
    requires Expanding(g, dest, s, closed, q) && m in g.waypoints && Adjacent(m, q)
    ensures var r := Relax(g, s, q, m);
      && Expanding(g, dest, r, closed, q) && NoWorse(g, s, r, closed - {dest})
      && r.way[q] == s.way[q] && r.way[m] <= s.way[q] + StepCost(g, m, q)
      && r.way.Keys == s.way.Keys
  {
    hide ValidGrid, Estimate, StepCost, Queue, Labels, Relax, IsDestination;
    RelaxCore(g, dest, s, closed, q, m);
    if s.way[q] + StepCost(g, m, q) < s.way[m] {
      ImprovedIsNew(g, dest, s, closed, q, m);
    }
    RelaxImproves(g, s, q, m, closed - {dest});
    FromBase(g, dest, s, closed, q);
    FromBase(g, dest, Relax(g, s, q, m), closed, q);
  }

  /** All relaxations of one expansion. */
  lemma {:induction false} RelaxAllKeeps(g: Grid, dest: Pos, s: Search, closed: set<Pos>, q: Pos, ms: seq<Pos>)
    requires ValidGrid(g) && Shaped(g, s) && q in g.waypoints && q in s.way && Expanding(g, dest, s, closed, q)
    requires forall m :: m in ms ==> m in g.waypoints && m in s.way && Adjacent(m, q)
    ensures var r := RelaxAll(g, s, q, ms);
      && Expanding(g, dest, r, closed, q)
      && NoWorse(g, s, r, closed - {dest}) && q in r.way && r.way[q] == s.way[q]
      && (forall m :: m in ms ==> m in r.way && r.way[m] <= s.way[q] + StepCost(g, m, q))
    decreases |ms|
  {
    hide ValidGrid, Expanding, Adjacent, StepCost, Relax, Shaped, NoWorse;
    if ms != [] {
      var m := ms[0];
      assert m in ms && forall x :: x in ms[1..] ==> x in ms;
      RelaxOne(g, dest, s, closed, q, m);
      var t := Relax(g, s, q, m);
      RelaxAllKeeps(g, dest, t, closed, q, ms[1..]);
      NoWorseTransitive(g, s, t, RelaxAll(g, t, q, ms[1..]), closed - {dest}, m);
      assert ms == [m] + ms[1..];
    } else {
      NoWorseSelf(g, s, closed - {dest});
    }
  }

  // ------------------------------------------------------------ one expansion

  lemma TakeLabel(g: Grid, dest: Pos, s: Search, closed: set<Pos>, p: Pos)
    requires ValidGrid(g) && Shaped(g, s) && p in g.waypoints && dest in g.waypoints && s.open != []
    requires Distinct(s.open) && Label(g, dest, s, closed, p) && s.open[0] !in closed
    ensures Label(g, dest, s.(open := s.open[1..]), closed + {s.open[0]}, p)
  {
    hide Estimate, StepCost, FitsInt;
    var q := s.open[0];
    assert s.open == [q] + s.open[1..] && q in s.open;
    assert |closed + {q}| == |closed| + 1;
  }

  lemma TakeQueue(g: Grid, dest: Pos, s: Search, closed: set<Pos>)
    requires ValidGrid(g) && Shaped(g, s) && dest in g.waypoints && s.open != []
    requires Queue(g, dest, s, closed)
    ensures Queue(g, dest, s.(open := s.open[1..]), closed + {s.open[0]})
    ensures s.open[0] !in closed && s.open[0] != ORIGIN && Distinct(s.open)
    ensures s.open[0] == dest <==> closed == {}
    ensures s.open[0] != dest ==> Walkable(g, s.open[0])
    ensures s.open[0] != dest ==> forall p :: p in closed && p != dest ==> s.key[p] <= s.key[s.open[0]]
  {
    FirstIsNew(g, dest, s, closed);
    RestIsQueue(g, dest, s, closed);
  }

  lemma FirstIsNew(g: Grid, dest: Pos, s: Search, closed: set<Pos>)
    requires ValidGrid(g) && Shaped(g, s) && dest in g.waypoints && s.open != []
    requires Queue(g, dest, s, closed)
    ensures s.open[0] !in closed && s.open[0] != ORIGIN && Distinct(s.open)
    ensures s.open[0] == dest <==> closed == {}
    ensures s.open[0] != dest ==> Walkable(g, s.open[0])
    ensures s.open[0] != dest ==> forall p :: p in closed && p != dest ==> s.key[p] <= s.key[s.open[0]]
  {
    hide ValidGrid, Distinct, Sorted;
    assert s.open[0] in s.open;
  }

  lemma RestIsQueue(g: Grid, dest: Pos, s: Search, closed: set<Pos>)
    requires ValidGrid(g) && Shaped(g, s) && dest in g.waypoints && s.open != []
    requires Queue(g, dest, s, closed)
    ensures Queue(g, dest, s.(open := s.open[1..]), closed + {s.open[0]})
  {
    hide ValidGrid, Walkable, InWindow;
    RestOfList(s.open, s.key);
    assert s.open[0] in s.open && forall o :: o in s.open[1..] ==> o in s.open;
    hide Distinct, Sorted;
  }

  lemma RestOfList(open: seq<Pos>, key: map<Pos, int>)
    requires open != [] && (forall i :: 0 <= i < |open| ==> open[i] in key) && Distinct(open) && Sorted(open, key)
    ensures (forall i :: 0 <= i < |open[1..]| ==> open[1..][i] in key) && Distinct(open[1..]) && Sorted(open[1..], key)
    ensures open[0] !in open[1..] && forall o :: o in open[1..] ==> key[open[0]] <= key[o]
  {
    assert open == [open[0]] + open[1..];
  }

  /** Taking the first field off the list. */
  lemma TakeFirst(g: Grid, dest: Pos, s: Search, closed: set<Pos>)
    requires Core(g, dest, s, closed) && s.open != []
    ensures var q := s.open[0];
      q !in closed && q in Window(g) && Expanding(g, dest, s.(open := s.open[1..]), closed + {q}, q)
  {
    hide Estimate, StepCost, ValidGrid, Queue, Labels, Label, Distinct, Sorted;
    var q := s.open[0];
    assert q in s.open;
    TakeQueue(g, dest, s, closed);
    TakeLabels(g, dest, s, closed);
    assert |closed + {q}| == |closed| + 1;
    assert q == dest ==> closed + {q} == {dest};
    FirstLabel(g, dest, s, closed);
  }

  lemma TakeLabels(g: Grid, dest: Pos, s: Search, closed: set<Pos>)
    requires Core(g, dest, s, closed) && s.open != [] && s.open[0] !in closed && Distinct(s.open)
    ensures Labels(g, dest, s.(open := s.open[1..]), closed + {s.open[0]})
  {
    hide Estimate, StepCost, ValidGrid, Queue, Label, Distinct, Trapped;
    var r, done := s.(open := s.open[1..]), closed + {s.open[0]};
    assert DestLabel(g, dest, r, done);
    forall p | p in g.waypoints && Relevant(g, p) && p != dest
      ensures Label(g, dest, r, done, p)
    {
      assert Label(g, dest, s, closed, p);
      TakeLabel(g, dest, s, closed, p);
    }
  }

  /** The field that is taken has a label within the bounds. */
  lemma FirstLabel(g: Grid, dest: Pos, s: Search, closed: set<Pos>)
    requires Core(g, dest, s, closed) && s.open != []
    requires s.open[0] != dest ==> Walkable(g, s.open[0])
    requires s.open[0] == dest ==> closed == {}
    ensures s.way[s.open[0]] <= Bound(g, |closed|)
  {
    hide Estimate, StepCost, ValidGrid, Queue, Trapped;
    var q := s.open[0];
    assert q in s.open;
    if q != dest {
      assert Label(g, dest, s, closed, q);
    } else {
      assert DestLabel(g, dest, s, closed);
    }
  }

  /** The destination is always relaxed: the origin has no label yet. */
  lemma DestinationNotPruned(g: Grid, dest: Pos, s: Search)
    requires Core(g, dest, s, {})
    ensures s.way[dest] + g.waypoints[dest] < s.way[ORIGIN]
  {
    hide Estimate, StepCost, Queue;
    assert Label(g, dest, s, {}, ORIGIN);
    assert dest in Window(g);
    BoundGrows(g, 1, |Window(g)|);
    assert Bound(g, 1) == 3 * g.max;
  }

  lemma NoWorsePart(g: Grid, s: Search, r: Search, big: set<Pos>, small: set<Pos>)
    requires Shaped(g, s) && Shaped(g, r) && small <= big && NoWorse(g, s, r, big)
    ensures NoWorse(g, s, r, small)
  {
  }

  /** After its expansion a field is settled. */
  lemma NowSettled(g: Grid, dest: Pos, s: Search, r: Search, q: Pos)
    requires ValidGrid(g) && Shaped(g, s) && Shaped(g, r) && q in g.waypoints && Base(r, dest, q) == s.way[q]
    requires forall m :: m in Neighbors(q) ==> m in r.way && m in g.waypoints && r.way[m] <= s.way[q] + StepCost(g, m, q)
    ensures Settled(g, dest, r, q)
  {
    hide StepCost, ValidGrid;
  }

  lemma SkippedIsSettled(g: Grid, dest: Pos, s: Search, q: Pos)
    requires ValidGrid(g) && Shaped(g, s) && q in g.waypoints && q != dest
    requires s.way[q] + g.waypoints[q] >= s.way[ORIGIN]
    ensures Settled(g, dest, s, q)
  {
  }

  /** One turn of the main loop keeps the invariant and expands a new field, one
      with a key at least as large as all keys expanded before. */
  lemma ExpandKeeps(g: Grid, dest: Pos, s: Search, closed: set<Pos>)
    requires Inv(g, dest, s, closed) && s.open != []
    ensures s.open[0] in Window(g) - closed
    ensures s.open[0] != dest ==> forall p :: p in closed && p != dest ==> s.key[p] <= s.key[s.open[0]]
    ensures Inv(g, dest, Expand(g, s), closed + {s.open[0]})
  {
    hide *;
    InvIsCore(g, dest, s, closed);
    TakeFirst(g, dest, s, closed);
    ExpandReady(g, dest, s, closed);
    StillSettled(g, dest, s, closed);
    ExpandTaken(g, dest, s.(open := s.open[1..]), closed, s.open[0]);
  }

  lemma InvIsCore(g: Grid, dest: Pos, s: Search, closed: set<Pos>)
    requires Inv(g, dest, s, closed)
    ensures Core(g, dest, s, closed)
  {
  }

  /** What the expansion of the first field is, and what is known of it. */
  lemma ExpandReady(g: Grid, dest: Pos, s: Search, closed: set<Pos>)
    requires Inv(g, dest, s, closed) && s.open != []
    ensures var q, s0 := s.open[0], s.(open := s.open[1..]);
      && ValidGrid(g) && Shaped(g, s) && Shaped(g, s0) && q in g.waypoints && q in s.way && q in s.key && ORIGIN in s.way
      && (forall m :: m in Neighbors(q) ==> m in g.waypoints)
      && (forall p :: p in closed ==> p in s.key)
      && (q != dest ==> forall p :: p in closed && p != dest ==> s.key[p] <= s.key[q])
      && (q == dest ==> s.way[q] + g.waypoints[q] < s.way[ORIGIN])
      && Expand(g, s) == if s.way[q] + g.waypoints[q] >= s.way[ORIGIN] then s0 else RelaxAll(g, s0, q, Neighbors(q))
  {
    hide Estimate, Queue, Labels, FitsInt, AllSettled, RelaxAll, Trapped;
    TakeQueue(g, dest, s, closed);
    if s.open[0] == dest {
      DestinationNotPruned(g, dest, s);
    }
  }

  lemma StillSettled(g: Grid, dest: Pos, s: Search, closed: set<Pos>)
    requires Inv(g, dest, s, closed) && s.open != []
    ensures Shaped(g, s.(open := s.open[1..])) && ValidGrid(g)
    ensures AllSettled(g, dest, s.(open := s.open[1..]), closed)
  {
    hide Estimate, Queue, Labels, FitsInt, AllSettled, Trapped, NoWorse;
    var s0 := s.(open := s.open[1..]);
    SameWay(g, s, s0, closed - {dest});
    SettledStays(g, dest, s, s0, closed);
  }

  lemma SameWay(g: Grid, s: Search, r: Search, closed: set<Pos>)
    requires Shaped(g, s) && Shaped(g, r) && r.way == s.way
    ensures NoWorse(g, s, r, closed)
  {
  }

  /** The expansion of the field that was taken off the list. */
  lemma ExpandTaken(g: Grid, dest: Pos, s: Search, closed: set<Pos>, q: Pos)
    requires Expanding(g, dest, s, closed + {q}, q) && q !in closed && AllSettled(g, dest, s, closed)
    requires forall m :: m in Neighbors(q) ==> m in g.waypoints
    requires q == dest ==> s.way[q] + g.waypoints[q] < s.way[ORIGIN]
    ensures var r := if s.way[q] + g.waypoints[q] >= s.way[ORIGIN] then s else RelaxAll(g, s, q, Neighbors(q));
      Inv(g, dest, r, closed + {q})
  {
    hide Estimate, Queue, Labels, FitsInt, Trapped, NoWorse, RelaxAll, Settled;
    if s.way[q] + g.waypoints[q] < s.way[ORIGIN] {
      var r := RelaxAll(g, s, q, Neighbors(q));
      RelaxAllKeeps(g, dest, s, closed + {q}, q, Neighbors(q));
      FromBase(g, dest, r, closed + {q}, q);
      NoWorsePart(g, s, r, closed + {q} - {dest}, closed - {dest});
      NowSettled(g, dest, s, r, q);
      SettledStays(g, dest, s, r, closed);
    } else {
      SkippedIsSettled(g, dest, s, q);
    }
  }

  // ------------------------------------------------------- the end of a search

  /** The search is over. */
  ghost predicate Finished(g: Grid, dest: Pos, s: Search, closed: set<Pos>) {
    Inv(g, dest, s, closed) && s.open == []
  }

  /** What a label and a settled neighbour mean for the field in front of it. */
  lemma BestStep(g: Grid, dest: Pos, s: Search, closed: set<Pos>, p: Pos, n: Pos)
    requires Finished(g, dest, s, closed)
    requires p in g.waypoints && n in g.waypoints && Adjacent(p, n) && Relevant(g, p)
    requires n == dest || (Relevant(g, n) && n != ORIGIN && s.way[n] < INT_MAX)
    ensures
      || (n != dest && s.way[ORIGIN] <= s.way[n] + g.waypoints[n] < INT_MAX)
      || s.way[p] <= Base(s, dest, n) + StepCost(g, p, n) < INT_MAX
  {
    hide Estimate, FitsInt;
    if n != dest {
      assert Label(g, dest, s, closed, n);
    }
    LabelBound(g, closed, n);
    BoundGrows(g, 0, |closed|);
    assert n in closed;
    assert Settled(g, dest, s, n);
  }

  /** No way to the destination is cheaper than the labels say. */
  lemma {:induction false} NoCheaperWay(g: Grid, dest: Pos, s: Search, closed: set<Pos>, path: seq<Pos>)
    requires Finished(g, dest, s, closed) && IsPath(g, dest, path)
    requires path[0] in g.waypoints && (Relevant(g, path[0]) || |path| == 1)
    ensures s.way[ORIGIN] <= INT_MAX
    ensures s.way[ORIGIN] <= PathCost(g, path) || s.way[path[0]] <= PathCost(g, path)
    ensures s.way[ORIGIN] < INT_MAX || s.way[path[0]] < INT_MAX
    decreases |path|
  {
    hide Queue, Settled, Estimate, FitsInt;
    assert Label(g, dest, s, closed, ORIGIN);
    LabelBound(g, closed, ORIGIN);
    if |path| > 1 {
      var rest, n := path[1..], path[1];
      assert IsPath(g, dest, rest);
      assert Adjacent(path[0], path[1]);
      assert |rest| > 1 ==> Walkable(g, n) && InWindow(g, n);
      NoCheaperWay(g, dest, s, closed, rest);
      if n == dest && |rest| == 1 {
        BestStep(g, dest, s, closed, path[0], dest);
      } else if n != ORIGIN && s.way[n] < INT_MAX {
        BestStep(g, dest, s, closed, path[0], n);
      }
    }
  }

  /** The chain of predecessors of a labelled field. */
  ghost function Chain(g: Grid, dest: Pos, s: Search, closed: set<Pos>, p: Pos): (path: seq<Pos>)
    requires Core(g, dest, s, closed)
    requires p == dest || (p in g.waypoints && Relevant(g, p) && s.way[p] < INT_MAX)
    decreases if p == dest then 0 else s.way[p] + 4
  {
    if p == dest then [dest]
    else
      PredIsLower(g, dest, s, closed, p);
      [p] + Chain(g, dest, s, closed, s.pred[p].value)
  }

  /** The predecessor of a labelled field has a lower label, unless it is the destination. */
  lemma PredIsLower(g: Grid, dest: Pos, s: Search, closed: set<Pos>, p: Pos)
    requires Core(g, dest, s, closed) && p != dest && p in g.waypoints && Relevant(g, p) && s.way[p] < INT_MAX
    ensures s.way[p] + 4 > 0 && p in s.pred && s.pred[p].Some?
    ensures var q := s.pred[p].value;
      q != dest ==> q in g.waypoints && Relevant(g, q) && s.way[q] < s.way[p] && 0 < s.way[q] + 4
  {
    hide FitsInt, Estimate, Trapped;
    assert Label(g, dest, s, closed, p);
    var q := s.pred[p].value;
    assert q != dest ==> Label(g, dest, s, closed, q) && g.waypoints[q] > 0;
  }

  /** One step in front of a way. */
  lemma StepBefore(g: Grid, dest: Pos, p: Pos, rest: seq<Pos>)
    requires IsPath(g, dest, rest) && Adjacent(p, rest[0]) && rest[0] in g.waypoints
    requires |rest| > 1 ==> InWindow(g, rest[0]) && Walkable(g, rest[0])
    ensures IsPath(g, dest, [p] + rest)
    ensures PathCost(g, [p] + rest) == StepCost(g, p, rest[0]) + PathCost(g, rest)
  {
    var path := [p] + rest;
    assert path[1..] == rest;
  }

  /** The chain is a way to the destination that costs what its label says. */
  lemma {:induction false} ChainIsWay(g: Grid, dest: Pos, s: Search, closed: set<Pos>, p: Pos)
    requires Core(g, dest, s, closed)
    requires p == dest || (p in g.waypoints && Relevant(g, p) && s.way[p] < INT_MAX)
    ensures var path := Chain(g, dest, s, closed, p);
      && IsPath(g, dest, path) && path[0] == p && (p == dest ==> |path| == 1)
      && PathCost(g, path) == Base(s, dest, p)
    decreases if p == dest then 0 else s.way[p] + 4
  {
    hide Estimate, FitsInt, PathCost;
    if p == dest {
      NoStep(g, dest);
    } else {
      assert Label(g, dest, s, closed, p);
      var q := s.pred[p].value;
      assert q != dest ==> Label(g, dest, s, closed, q);
      ChainIsWay(g, dest, s, closed, q);
      StepBefore(g, dest, p, Chain(g, dest, s, closed, q));
    }
  }

  lemma NoStep(g: Grid, dest: Pos)
    requires dest in g.waypoints
    ensures IsPath(g, dest, [dest]) && PathCost(g, [dest]) == 0
  {
  }

  /** Labels fall along the chain, so it never visits a field twice. */
  lemma {:induction false} ChainDescends(g: Grid, dest: Pos, s: Search, closed: set<Pos>, p: Pos)
    requires Core(g, dest, s, closed)
    requires p == dest || (p in g.waypoints && Relevant(g, p) && s.way[p] < INT_MAX)
    ensures var path := Chain(g, dest, s, closed, p);
      && Distinct(path)
      && (forall x :: x in path && x != p && p != dest ==> x == dest || (x in s.way && s.way[x] < s.way[p]))
    decreases if p == dest then 0 else s.way[p] + 4
  {
    hide Estimate, FitsInt;
    if p != dest {
      assert Label(g, dest, s, closed, p);
      var q := s.pred[p].value;
      assert q != dest ==> Label(g, dest, s, closed, q);
      ChainDescends(g, dest, s, closed, q);
      var rest := Chain(g, dest, s, closed, q);
      assert Chain(g, dest, s, closed, p) == [p] + rest;
      if q == dest {
        assert rest == [dest];
      } else {
        assert s.way[q] < s.way[p];
        assert p !in rest;
      }
    }
  }

  /** A way from the origin that no other way from the origin undercuts. */
  ghost predicate IsCheapest(g: Grid, dest: Pos, path: seq<Pos>)
    requires ValidGrid(g)
  {
    && IsPath(g, dest, path) && path[0] == ORIGIN && Distinct(path)
    && (forall other :: IsPath(g, dest, other) && other[0] == ORIGIN ==> PathCost(g, path) <= PathCost(g, other))
  }

  /** A finished search has labelled the origin exactly when there is a way, and
      the chain of predecessors of the origin is a cheapest one. */
  lemma SearchIsOptimal(g: Grid, dest: Pos, s: Search, closed: set<Pos>)
    requires Finished(g, dest, s, closed)
    ensures s.way[ORIGIN] == INT_MAX <==> !exists path :: IsPath(g, dest, path) && path[0] == ORIGIN
    ensures s.way[ORIGIN] != INT_MAX ==>
      && s.way[ORIGIN] < INT_MAX
      && IsCheapest(g, dest, Chain(g, dest, s, closed, ORIGIN))
      && PathCost(g, Chain(g, dest, s, closed, ORIGIN)) == s.way[ORIGIN]
  {
    hide Queue, Settled, Estimate, FitsInt;
    assert Label(g, dest, s, closed, ORIGIN);
    LabelBound(g, closed, ORIGIN);
    forall path | IsPath(g, dest, path) && path[0] == ORIGIN
      ensures s.way[ORIGIN] <= PathCost(g, path) && s.way[ORIGIN] < INT_MAX
    {
      NoCheaperWay(g, dest, s, closed, path);
    }
    if s.way[ORIGIN] != INT_MAX {
      ChainIsWay(g, dest, s, closed, ORIGIN);
      ChainDescends(g, dest, s, closed, ORIGIN);
    }
  }
}
