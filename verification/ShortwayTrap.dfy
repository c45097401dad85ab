/**
  When the chain of predecessors ends at the destination, and when it goes on.
*/
module ShortwayTrap {
  import opened Common
  import opened ShortwayModel
  import opened ShortwayProof

  /** Without a trap the chain ends at the destination. */
  lemma SafeDestination(g: Grid, dest: Pos, s: Search, closed: set<Pos>)
    requires Core(g, dest, s, closed) && !Trapped(g, dest)
    ensures dest in s.pred && s.pred[dest] == None
  {
    hide Queue, FitsInt, Label, Trapped;
    assert DestLabel(g, dest, s, closed);
  }

  /** Four steps away from the destination no way has a negative length. */
  lemma FarIsNotNegative(g: Grid, dest: Pos, s: Search, closed: set<Pos>)
    requires Core(g, dest, s, closed) && Chebyshev(ORIGIN, dest) >= 4
    ensures ORIGIN in s.way && s.way[ORIGIN] >= 0
  {
    hide Queue, FitsInt, Trapped;
    assert Label(g, dest, s, closed, ORIGIN);
  }

  /** What a finished search has done with a field of cost 1 whose step cannot be pruned. */
  lemma StepTaken(g: Grid, dest: Pos, s: Search, closed: set<Pos>, q: Pos, m: Pos)
    requires Finished(g, dest, s, closed) && 0 <= s.way[ORIGIN] && q in g.waypoints && m in g.waypoints
    requires InWindow(g, q) && q != ORIGIN && q != dest && g.waypoints[q] == 1 && s.way[q] <= -2
    requires Adjacent(m, q) && (Relevant(g, m) || m == dest)
    ensures s.way[m] <= s.way[q] + StepCost(g, m, q)
  {
    hide FitsInt, Trapped;
    assert Label(g, dest, s, closed, q);
    assert Settled(g, dest, s, q);
  }

  /** Unless the way found is shorter than nothing, a trap gives the destination a predecessor. */
  lemma TrapSprings(g: Grid, dest: Pos, s: Search, closed: set<Pos>)
    requires Finished(g, dest, s, closed) && Trapped(g, dest) && 0 <= s.way[ORIGIN]
    ensures s.way[dest] == -1 && s.pred[dest].Some?
  {
    hide FitsInt, Estimate, Floor;
    var a, b :| Trap(g, dest, a, b);
    assert InWindow(g, a) && InWindow(g, b);
    assert Settled(g, dest, s, dest) by { DestExpanded(g, dest, s, closed); }
    assert s.way[a] <= -3;
    StepTaken(g, dest, s, closed, a, b);
    StepTaken(g, dest, s, closed, b, dest);
    assert DestLabel(g, dest, s, closed);
  }

  lemma DestExpanded(g: Grid, dest: Pos, s: Search, closed: set<Pos>)
    requires Finished(g, dest, s, closed)
    ensures dest in closed && Settled(g, dest, s, dest)
  {
    hide FitsInt, Estimate, Floor, Label;
  }

  /**
    The chain of predecessors ends at the destination if and only if there is no trap,
    for every destination at least four steps away, and for a nearer one that cannot
    be reached for less than nothing.
  */
  lemma ChainEndsIffNoTrap(g: Grid, dest: Pos, s: Search, closed: set<Pos>)
    requires Finished(g, dest, s, closed)
    ensures ORIGIN in s.way && dest in s.pred
    ensures Chebyshev(ORIGIN, dest) >= 4 || s.way[ORIGIN] >= 0 ==> (s.pred[dest] == None <==> !Trapped(g, dest))
    ensures s.pred[dest].Some? ==> Trapped(g, dest)
  {
    hide FitsInt, Trapped, Label, Queue, AllSettled, Floor;
    if Trapped(g, dest) {
      if Chebyshev(ORIGIN, dest) >= 4 {
        FarIsNotNegative(g, dest, s, closed);
      }
      if s.way[ORIGIN] >= 0 {
        TrapSprings(g, dest, s, closed);
      }
    } else {
      SafeDestination(g, dest, s, closed);
    }
  }

  // ---------------------------------------------------------- traps that come too late

  /**
    A way shorter than nothing is found before the straight field `b` of any trap is
    expanded with its lowered label: `Distance(b) - 2` is then the key of `b`.
  */
  ghost predicate Outruns(g: Grid, dest: Pos, path: seq<Pos>) {
    && IsPath(g, dest, path) && path[0] == ORIGIN && PathCost(g, path) < 0
    && (forall a, b :: Trap(g, dest, a, b) ==> PathCost(g, path) < Distance(b) - 2)
  }

  ghost predicate Outrun(g: Grid, dest: Pos) {
    exists path :: Outruns(g, dest, path)
  }

  predicate OnGrid(g: Grid, path: seq<Pos>) {
    forall k :: 0 < k < |path| ==> path[k] in g.waypoints
  }

  /** What is left of a way behind a field, and what its estimate says of the whole. */
  lemma {:induction false} Admissible(g: Grid, dest: Pos, path: seq<Pos>, i: nat)
    requires ValidGrid(g) && IsPath(g, dest, path) && path[0] == ORIGIN && 0 < i < |path|
    requires forall k :: 0 < k <= i ==> Walkable(g, path[k])
    ensures path[i] in g.waypoints && OnGrid(g, path[i..])
    ensures Estimate(g, path[i]) + PathCost(g, path[i..]) <= PathCost(g, path)
    decreases i
  {
    hide FitsInt;
    CostBehind(g, dest, path, i - 1);
    if i == 1 {
      assert path[0..] == path;
      FirstStep(g, path[1]);
    } else {
      Admissible(g, dest, path, i - 1);
      Consistent(g, path[i], path[i - 1]);
    }
  }

  lemma CostBehind(g: Grid, dest: Pos, path: seq<Pos>, i: nat)
    requires IsPath(g, dest, path) && i + 1 < |path|
    ensures OnGrid(g, path[i..]) && OnGrid(g, path[i + 1..])
    ensures path[i + 1] in g.waypoints && Adjacent(path[i], path[i + 1])
    ensures PathCost(g, path[i..]) == StepCost(g, path[i], path[i + 1]) + PathCost(g, path[i + 1..])
  {
    assert path[i..][1..] == path[i + 1..];
  }

  lemma FirstStep(g: Grid, p: Pos)
    requires ValidGrid(g) && Walkable(g, p) && Adjacent(ORIGIN, p)
    ensures StepCost(g, ORIGIN, p) >= Estimate(g, p)
  {
    hide FitsInt;
    assert Distance(p) == if Diagonal(ORIGIN, p) then 2 else 1;
  }

  /** The `i`-th field of a path is in the list, with a label as good as the path. */
  ghost predicate Waits(g: Grid, s: Search, path: seq<Pos>, i: nat) {
    && 0 < i < |path| && path[i] in s.open && path[i] in s.way
    && OnGrid(g, path[i..])
    && s.way[path[i]] <= PathCost(g, path[i..])
  }

  /** At any time of the search a path is matched by the labels, or some field of it
      still waits in the list. */
  lemma {:induction false} PathWaits(g: Grid, dest: Pos, s: Search, closed: set<Pos>, path: seq<Pos>) returns (i: nat)
    requires Inv(g, dest, s, closed) && IsPath(g, dest, path) && |path| > 1
    requires path[0] in g.waypoints && Relevant(g, path[0])
    ensures
      || s.way[ORIGIN] <= PathCost(g, path)
      || s.way[path[0]] <= PathCost(g, path)
      || Waits(g, s, path, i)
    decreases |path|
  {
    hide FitsInt, Estimate, Queue, AllSettled;
    i := 1;
    var n, rest := path[1], path[1..];
    assert path[0..] == path;
    CostBehind(g, dest, path, 0);
    if |path| == 2 {
      LastStep(g, dest, s, closed, path);
    } else {
      assert IsPath(g, dest, rest);
      i := PathWaits(g, dest, s, closed, rest);
      if Waits(g, s, rest, i) {
        assert rest[i..] == path[i + 1..];
        i := i + 1;
      } else {
        i := 1;
        InnerStep(g, dest, s, closed, path);
      }
    }
  }

  lemma LastStep(g: Grid, dest: Pos, s: Search, closed: set<Pos>, path: seq<Pos>)
    requires Inv(g, dest, s, closed) && IsPath(g, dest, path) && |path| == 2
    requires path[0] in g.waypoints && Relevant(g, path[0])
    ensures s.way[path[0]] <= PathCost(g, path) || Waits(g, s, path, 1)
  {
    hide FitsInt, Estimate, Label;
    assert path[1..] == [dest] && PathCost(g, [dest]) == 0;
    assert DestLabel(g, dest, s, closed);
    if closed != {} {
      assert Settled(g, dest, s, dest);
    }
  }

  lemma InnerStep(g: Grid, dest: Pos, s: Search, closed: set<Pos>, path: seq<Pos>)
    requires Inv(g, dest, s, closed) && IsPath(g, dest, path) && |path| > 2
    requires path[0] in g.waypoints && Relevant(g, path[0]) && path[1] in g.waypoints
    requires OnGrid(g, path[1..])
    requires s.way[ORIGIN] <= PathCost(g, path[1..]) || s.way[path[1]] <= PathCost(g, path[1..])
    ensures s.way[ORIGIN] <= PathCost(g, path) || s.way[path[0]] <= PathCost(g, path) || Waits(g, s, path, 1)
  {
    hide FitsInt, Estimate;
    var n := path[1];
    CostBehind(g, dest, path, 0);
    assert path[0..] == path && Walkable(g, n);
    assert Label(g, dest, s, closed, ORIGIN);
    LabelBound(g, closed, ORIGIN);
    BoundGrows(g, 0, |closed|);
    if n != ORIGIN && n !in s.open && s.way[n] <= PathCost(g, path[1..]) {
      if n == dest {
        assert DestLabel(g, dest, s, closed);
        assert s.way[dest] == 0;
        assert Settled(g, dest, s, dest);
      } else {
        assert Label(g, dest, s, closed, n);
        if s.way[n] < INT_MAX {
          assert Settled(g, dest, s, n);
        }
      }
    }
  }

  /** A straight neighbour of cost 1 that was lowered belongs to a trap. */
  lemma LoweredIsTrap(g: Grid, dest: Pos, s: Search, closed: set<Pos>, q: Pos)
    requires Core(g, dest, s, closed) && g.waypoints[dest] <= 0 && Walkable(g, q) && InWindow(g, q)
    requires q != ORIGIN && Adjacent(q, dest) && !Diagonal(q, dest) && g.waypoints[q] == 1 && s.way[q] == -2
    ensures s.pred[q].Some? && Trap(g, dest, s.pred[q].value, q)
  {
    hide FitsInt, Estimate, Trapped;
    assert Label(g, dest, s, closed, q);
    var a := s.pred[q].value;
    if a != dest {
      assert Label(g, dest, s, closed, a);
    }
  }

  /** The key of such a field. */
  lemma LoweredKey(g: Grid, dest: Pos, s: Search, closed: set<Pos>, q: Pos)
    requires Core(g, dest, s, closed) && q in s.open && q != dest && Adjacent(dest, q)
    requires s.way[q] + StepCost(g, dest, q) < 0
    ensures Trapped(g, dest) && !Diagonal(q, dest) && g.waypoints[q] == 1 && s.way[q] == -2 && Walkable(g, q) && q != ORIGIN
    ensures s.key[q] == Distance(q) - 2
  {
    hide FitsInt, Estimate, StepCost;
    assert Walkable(g, q) && InWindow(g, q) && q != ORIGIN by {
      hide Label, Trapped, Floor;
      assert closed != {};
    }
    assert Floor(g, dest, q) <= s.way[q] && s.key[q] == s.way[q] + Estimate(g, q) by {
      hide Trapped, Floor, Queue;
      assert Label(g, dest, s, closed, q);
      LabelBound(g, closed, q);
    }
    hide Label, Labels, Queue;
    LoweredCost(g, dest, q, s.way[q]);
  }

  /** Only from a length of -2 and at a cost of 1 does a step lower the destination. */
  lemma LoweredCost(g: Grid, dest: Pos, q: Pos, length: int)
    requires ValidGrid(g) && IsDestination(g, dest) && Walkable(g, q) && q != ORIGIN && q != dest && Adjacent(dest, q)
    requires Floor(g, dest, q) <= length && length + StepCost(g, dest, q) < 0
    ensures Trapped(g, dest) && !Diagonal(q, dest) && g.waypoints[q] == 1 && length == -2
    ensures Estimate(g, q) == Distance(q)
  {
    hide FitsInt;
    FloorStep(g, dest, q, dest, length);
    assert Floor(g, dest, q) >= -3;
    hide Floor, Trapped;
    assert g.min == 1;
  }

  /** A field of a path that waits has a key no larger than the cost of the path. */
  lemma WaitingKey(g: Grid, dest: Pos, s: Search, closed: set<Pos>, path: seq<Pos>, i: nat)
    requires Core(g, dest, s, closed) && closed != {} && g.waypoints[dest] <= 0
    requires IsPath(g, dest, path) && path[0] == ORIGIN && Waits(g, s, path, i)
    ensures i < |path| && path[i] in s.open && path[i] in s.key && s.key[path[i]] <= PathCost(g, path)
  {
    hide FitsInt, Estimate, Trapped, Floor;
    var p := path[i];
    assert Walkable(g, p) && p != ORIGIN && p != dest;
    assert Label(g, dest, s, closed, p);
    LabelBound(g, closed, p);
    Admissible(g, dest, path, i);
  }

  /** A field that would lower the destination is not reached before a way that outruns it is found. */
  lemma TooLate(g: Grid, dest: Pos, s: Search, closed: set<Pos>, path: seq<Pos>)
    requires Inv(g, dest, s, closed) && s.open != [] && Outruns(g, dest, path)
    requires var q := s.open[0];
      q != dest && Adjacent(dest, q) && s.way[q] + g.waypoints[q] < s.way[ORIGIN]
    ensures var q := s.open[0]; s.way[q] + StepCost(g, dest, q) >= 0
  {
    hide FitsInt, Estimate, Label, AllSettled, PathCost, Floor, Waits;
    var q := s.open[0];
    assert q in s.open;
    if s.way[q] + StepCost(g, dest, q) < 0 {
      LoweredKey(g, dest, s, closed, q);
      LoweredIsTrap(g, dest, s, closed, q);
      assert Trap(g, dest, s.pred[q].value, q);
      LongEnough(g, dest, path);
      var i := PathWaits(g, dest, s, closed, path);
      assert Waits(g, s, path, i);
      WaitingKey(g, dest, s, closed, path, i);
      InFront(s, path[i]);
    }
  }

  lemma InFront(s: Search, p: Pos)
    requires forall i :: 0 <= i < |s.open| ==> s.open[i] in s.key
    requires Sorted(s.open, s.key) && p in s.open
    ensures s.key[s.open[0]] <= s.key[p]
  {
  }

  lemma LongEnough(g: Grid, dest: Pos, path: seq<Pos>)
    requires IsPath(g, dest, path) && path[0] != dest
    ensures |path| > 1
  {
  }

  /** Relaxing fields leaves the label of one that cannot be improved. */
  lemma {:induction false} Unaffected(g: Grid, s: Search, q: Pos, ms: seq<Pos>, d: Pos)
    requires ValidGrid(g) && Shaped(g, s) && q in g.waypoints && d in g.waypoints && q !in ms
    requires forall m :: m in ms ==> m in g.waypoints
    requires d in ms ==> s.way[q] + StepCost(g, d, q) >= s.way[d]
    ensures d in RelaxAll(g, s, q, ms).way && RelaxAll(g, s, q, ms).way[d] == s.way[d]
    decreases |ms|
  {
    hide ValidGrid, Shaped, StepCost;
    if ms != [] {
      var m := ms[0];
      assert m in ms && forall x :: x in ms[1..] ==> x in ms;
      RelaxedWay(g, s, q, m, d);
      Unaffected(g, Relax(g, s, q, m), q, ms[1..], d);
    } else {
      SameDomain(g, s, d);
    }
  }

  lemma SameDomain(g: Grid, s: Search, d: Pos)
    requires Shaped(g, s) && d in g.waypoints
    ensures d in s.way
  {
  }

  lemma RelaxedWay(g: Grid, s: Search, q: Pos, m: Pos, d: Pos)
    requires ValidGrid(g) && Shaped(g, s) && q in g.waypoints && m in g.waypoints && d in g.waypoints && m != q
    requires d == m ==> s.way[q] + StepCost(g, d, q) >= s.way[d]
    ensures var r := Relax(g, s, q, m);
      q in r.way && d in r.way && q in s.way && d in s.way && r.way[q] == s.way[q] && r.way[d] == s.way[d]
  {
    hide FitsInt, StepCost, Relax;
    if s.way[q] + StepCost(g, m, q) < s.way[m] {
      RelaxedFields(g, s, q, m);
    } else {
      RelaxNothing(g, s, q, m);
    }
  }

  /** A way that outruns all traps keeps the destination from being lowered. */
  ghost predicate Quiet(g: Grid, dest: Pos, s: Search) {
    dest in s.way && (Outrun(g, dest) ==> s.way[dest] == 0)
  }

  lemma QuietStays(g: Grid, dest: Pos, s: Search, closed: set<Pos>)
    requires Inv(g, dest, s, closed) && s.open != [] && Quiet(g, dest, s)
    ensures Quiet(g, dest, Expand(g, s))
  {
    hide FitsInt, Labels, Queue, AllSettled, Relax, RelaxAll, StepCost;
    var q, s0 := s.open[0], s.(open := s.open[1..]);
    TakeFirst(g, dest, s, closed);
    if s.way[q] + g.waypoints[q] < s.way[ORIGIN] {
      if Outrun(g, dest) {
        var path :| Outruns(g, dest, path);
        if Adjacent(dest, q) {
          TooLate(g, dest, s, closed, path);
        }
        Unaffected(g, s0, q, Neighbors(q), dest);
      } else {
        SameDomain(g, Expand(g, s), dest);
      }
    }
  }

  // ---------------------------------------------------------- following the chain

  /** Each field is the predecessor of the one in front of it. */
  ghost predicate Linked(g: Grid, s: Search, trail: seq<Pos>)
    requires Shaped(g, s)
  {
    && (forall i :: 0 <= i < |trail| ==> trail[i] in g.waypoints && InWindow(g, trail[i]))
    && (forall i :: 0 <= i < |trail| - 1 ==> s.pred[trail[i]] == Some(trail[i + 1]))
  }

  /** From each field the next one is a single step. */
  ghost predicate Connected(trail: seq<Pos>) {
    forall i :: 0 <= i < |trail| - 1 ==> Adjacent(trail[i], trail[i + 1])
  }

  /** The chain of predecessors of a field, link by link. */
  lemma {:induction false} ChainLinks(g: Grid, dest: Pos, s: Search, closed: set<Pos>, p: Pos)
    requires Core(g, dest, s, closed)
    requires p == dest || (p in g.waypoints && Relevant(g, p) && s.way[p] < INT_MAX)
    ensures var path := Chain(g, dest, s, closed, p);
      |path| > 0 && path[0] == p && path[|path| - 1] == dest && Linked(g, s, path)
    decreases if p == dest then 0 else s.way[p] + 4
  {
    hide Estimate, FitsInt;
    if p != dest {
      assert Label(g, dest, s, closed, p);
      var q := s.pred[p].value;
      assert q != dest ==> Label(g, dest, s, closed, q);
      ChainLinks(g, dest, s, closed, q);
      assert Chain(g, dest, s, closed, p) == [p] + Chain(g, dest, s, closed, q);
    }
  }

  /** The predecessor of the destination is a field with a chain of its own. */
  lemma AfterDest(g: Grid, dest: Pos, s: Search, closed: set<Pos>)
    requires Core(g, dest, s, closed) && s.pred[dest].Some?
    ensures dest in s.pred
    ensures var q := s.pred[dest].value;
      q in g.waypoints && Relevant(g, q) && s.way[q] < INT_MAX && q != dest
  {
    hide Estimate, FitsInt, Trapped, Label;
    assert DestLabel(g, dest, s, closed);
    assert s.pred[dest].value in Window(g);
  }

  /** A destination with a predecessor lies on a cycle of predecessors. */
  lemma DestOnCycle(g: Grid, dest: Pos, s: Search, closed: set<Pos>)
    requires Core(g, dest, s, closed) && s.pred[dest].Some?
    ensures exists cycle :: Linked(g, s, cycle) && |cycle| > 2 && cycle[0] == dest == cycle[|cycle| - 1]
  {
    hide Core, Relevant;
    AfterDest(g, dest, s, closed);
    var q := s.pred[dest].value;
    ChainLinks(g, dest, s, closed, q);
    var rest := Chain(g, dest, s, closed, q);
    Prepend(g, dest, s, closed, rest);
  }

  lemma Prepend(g: Grid, dest: Pos, s: Search, closed: set<Pos>, rest: seq<Pos>)
    requires Core(g, dest, s, closed) && Linked(g, s, rest) && |rest| > 0 && s.pred[dest] == Some(rest[0])
    ensures Linked(g, s, [dest] + rest)
  {
  }

  /**
    The fields that following the predecessors passes, at most `n` behind the first:
    the chain to the destination, and from there on if the destination has a
    predecessor.
  */
  ghost function Trail(g: Grid, dest: Pos, s: Search, closed: set<Pos>, p: Pos, n: nat): (trail: seq<Pos>)
    requires Core(g, dest, s, closed)
    requires p == dest || (p in g.waypoints && Relevant(g, p) && s.way[p] < INT_MAX)
    decreases n
  {
    if n == 0 || s.pred[p] == None then [p]
    else
      var q := s.pred[p].value;
      Onward(g, dest, s, closed, p);
      [p] + Trail(g, dest, s, closed, q, n - 1)
  }

  lemma Onward(g: Grid, dest: Pos, s: Search, closed: set<Pos>, p: Pos)
    requires Core(g, dest, s, closed) && (p == dest || (p in g.waypoints && Relevant(g, p) && s.way[p] < INT_MAX))
    ensures p in s.pred && (s.pred[p] == None ==> p == dest)
    ensures s.pred[p].Some? ==> var q := s.pred[p].value;
      Adjacent(p, q) && (q == dest || (q in g.waypoints && Relevant(g, q) && s.way[q] < INT_MAX))
  {
    hide Estimate, FitsInt, Trapped;
    if p == dest {
      if s.pred[p].Some? {
        AfterDest(g, dest, s, closed);
      }
    } else {
      assert Label(g, dest, s, closed, p);
      var q := s.pred[p].value;
      assert q != dest ==> Label(g, dest, s, closed, q);
    }
  }

  lemma {:induction false} TrailLinks(g: Grid, dest: Pos, s: Search, closed: set<Pos>, p: Pos, n: nat)
    requires Core(g, dest, s, closed)
    requires p == dest || (p in g.waypoints && Relevant(g, p) && s.way[p] < INT_MAX)
    ensures var trail := Trail(g, dest, s, closed, p, n);
      && 0 < |trail| <= n + 1 && trail[0] == p && Linked(g, s, trail) && Connected(trail)
      && (|trail| <= n ==> dest in s.pred && trail[|trail| - 1] == dest && s.pred[dest] == None)
    decreases n
  {
    hide Core, Relevant;
    Inside(g, dest, s, closed, p);
    Onward(g, dest, s, closed, p);
    if n > 0 && s.pred[p].Some? {
      var q := s.pred[p].value;
      TrailLinks(g, dest, s, closed, q, n - 1);
      assert Trail(g, dest, s, closed, p, n) == [p] + Trail(g, dest, s, closed, q, n - 1);
    }
  }

  lemma Inside(g: Grid, dest: Pos, s: Search, closed: set<Pos>, p: Pos)
    requires Core(g, dest, s, closed) && (p == dest || (p in g.waypoints && Relevant(g, p) && s.way[p] < INT_MAX))
    ensures p in g.waypoints && InWindow(g, p)
  {
  }

  /** The trail begins like the chain, and is the chain if it ends. */
  lemma {:induction false} TrailIsChain(g: Grid, dest: Pos, s: Search, closed: set<Pos>, p: Pos, n: nat)
    requires Core(g, dest, s, closed)
    requires p == dest || (p in g.waypoints && Relevant(g, p) && s.way[p] < INT_MAX)
    ensures var trail, path := Trail(g, dest, s, closed, p, n), Chain(g, dest, s, closed, p);
      && (if n < |path| - 1 then trail <= path else path <= trail)
      && (n < |path| - 1 || s.pred[dest].Some? ==> |trail| == n + 1)
      && (s.pred[dest] == None && n >= |path| - 1 ==> trail == path)
    decreases n
  {
    hide Core, Relevant;
    Onward(g, dest, s, closed, p);
    var path := Chain(g, dest, s, closed, p);
    if p == dest {
      TrailFromDest(g, dest, s, closed, n);
    } else if n > 0 {
      var q := s.pred[p].value;
      TrailIsChain(g, dest, s, closed, q, n - 1);
      ChainStep(g, dest, s, closed, p);
    } else {
      ChainStep(g, dest, s, closed, p);
    }
  }

  lemma ChainStep(g: Grid, dest: Pos, s: Search, closed: set<Pos>, p: Pos)
    requires Core(g, dest, s, closed) && p != dest && p in g.waypoints && Relevant(g, p) && s.way[p] < INT_MAX
    requires s.pred[p].Some? && (var q := s.pred[p].value; q == dest || (q in g.waypoints && Relevant(g, q) && s.way[q] < INT_MAX))
    ensures Chain(g, dest, s, closed, p) == [p] + Chain(g, dest, s, closed, s.pred[p].value)
    ensures |Chain(g, dest, s, closed, s.pred[p].value)| > 0
  {
    ChainLinks(g, dest, s, closed, s.pred[p].value);
  }

  /** A destination with a predecessor is passed again and again. */
  lemma {:induction false} TrailGoesOn(g: Grid, dest: Pos, s: Search, closed: set<Pos>, p: Pos, n: nat)
    requires Core(g, dest, s, closed) && s.pred[dest].Some?
    requires p == dest || (p in g.waypoints && Relevant(g, p) && s.way[p] < INT_MAX)
    ensures |Trail(g, dest, s, closed, p, n)| == n + 1
    decreases n
  {
    hide Core, Relevant;
    Onward(g, dest, s, closed, p);
    if n > 0 {
      TrailGoesOn(g, dest, s, closed, s.pred[p].value, n - 1);
    }
  }

  lemma TrailFromDest(g: Grid, dest: Pos, s: Search, closed: set<Pos>, n: nat)
    requires Core(g, dest, s, closed)
    ensures var trail := Trail(g, dest, s, closed, dest, n);
      && Chain(g, dest, s, closed, dest) == [dest] <= trail
      && (s.pred[dest].Some? || n == 0 ==> |trail| == n + 1)
      && (s.pred[dest] == None ==> trail == [dest])
  {
    hide Core, Relevant;
    Onward(g, dest, s, closed, dest);
    if s.pred[dest].Some? {
      TrailGoesOn(g, dest, s, closed, dest, n);
    }
    TrailLinks(g, dest, s, closed, dest, n);
  }

  // ---------------------------------------------------------- a search that springs a trap

  /** The main loop, run to its end. */
  ghost function Finish(g: Grid, dest: Pos, s: Search, closed: set<Pos>): (r: (Search, set<Pos>))
    requires Inv(g, dest, s, closed)
    ensures Finished(g, dest, r.0, r.1)
    decreases Window(g) - closed
  {
    if s.open == [] then (s, closed)
    else
      ExpandKeeps(g, dest, s, closed);
      Finish(g, dest, Expand(g, s), closed + {s.open[0]})
  }

  /** A corridor of 9 by 3 fields of cost 1, with a blocked field at its east end. */
  function Corridor(): Grid {
    Grid(4, 1, map x, y | -5 <= x <= 5 && -2 <= y <= 2 ::
           Pos(x, y) := if -4 <= x <= 4 && -1 <= y <= 1 && Pos(x, y) != Pos(4, 0) then 1 else -1, 1, 1)
  }

  lemma CorridorIsValid()
    ensures ValidGrid(Corridor()) && IsDestination(Corridor(), Pos(4, 0)) && Trapped(Corridor(), Pos(4, 0))
  {
    var g := Corridor();
    forall p ensures p in g.waypoints <==> InMap(g, p) {
      assert p == Pos(p.x, p.y);
    }
    hide FitsInt;
    WindowSize(g);
    SmallCostsFit(g);
    assert Trap(g, Pos(4, 0), Pos(3, 1), Pos(3, 0));
  }

  /** The way along the corridor exists, and still the search ends with the destination on a cycle. */
  lemma CorridorSprings(s: Search)
    requires Shaped(Corridor(), s) && IsInitial(Corridor(), Pos(4, 0), s)
    ensures Inv(Corridor(), Pos(4, 0), s, {})
    ensures var g, dest := Corridor(), Pos(4, 0);
      var r := Finish(g, dest, s, {}).0;
      && IsPath(g, dest, [ORIGIN, Pos(1, 0), Pos(2, 0), Pos(3, 0), dest])
      && ORIGIN in r.way && 0 <= r.way[ORIGIN] < INT_MAX
      && exists cycle :: Shaped(g, r) && Linked(g, r, cycle) && |cycle| > 2 && cycle[0] == dest == cycle[|cycle| - 1]
  {
    var g, dest := Corridor(), Pos(4, 0);
    var path := [ORIGIN, Pos(1, 0), Pos(2, 0), Pos(3, 0), dest];
    CorridorIsValid();
    CorridorPath();
    InitialInv(g, dest, s);
    var (r, closed) := Finish(g, dest, s, {});
    hide *;
    FarTrapSprings(g, dest, r, closed, path);
  }

  lemma CorridorPath()
    ensures IsPath(Corridor(), Pos(4, 0), [ORIGIN, Pos(1, 0), Pos(2, 0), Pos(3, 0), Pos(4, 0)])
    ensures Chebyshev(ORIGIN, Pos(4, 0)) >= 4
  {
  }

  lemma FarTrapSprings(g: Grid, dest: Pos, s: Search, closed: set<Pos>, path: seq<Pos>)
    requires Finished(g, dest, s, closed) && IsDestination(g, dest) && Trapped(g, dest) && Chebyshev(ORIGIN, dest) >= 4
    requires IsPath(g, dest, path) && path[0] == ORIGIN
    ensures ORIGIN in s.way && 0 <= s.way[ORIGIN] < INT_MAX
    ensures exists cycle :: Shaped(g, s) && Linked(g, s, cycle) && |cycle| > 2 && cycle[0] == dest == cycle[|cycle| - 1]
  {
    hide IsPath, Chebyshev, Trapped, Labels, Queue, AllSettled, FitsInt;
    FarIsNotNegative(g, dest, s, closed);
    SearchIsOptimal(g, dest, s, closed);
    ChainEndsIffNoTrap(g, dest, s, closed);
    DestOnCycle(g, dest, s, closed);
  }
}
