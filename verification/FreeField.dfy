/**
  Looking for a free field around a coordinate, in a spiral of growing squares.
*/
module FreeField {
  import opened Common

  datatype Offset = Offset(x: int, y: int)

  /** What the map says about a field. */
  datatype Field = Field(bank: bool, unpass: bool, avoid: bool, bed: bool, jumpable: bool, isHouse: bool, houseId: nat)

  const ANY_HOUSE: nat := 0xFFFF

  predicate Admissible(f: Field, houseId: nat, jump: bool) {
    && (if jump then f.jumpable else f.bank && !f.unpass && (f.avoid ==> f.bed))
    && (houseId == ANY_HOUSE || !f.isHouse || (houseId != 0 && f.houseId == houseId))
  }

  lemma AdmissibleIff(f: Field, houseId: nat, jump: bool, movePossible: bool)
    requires movePossible <==> if jump then f.jumpable else f.bank && !f.unpass && (f.avoid ==> f.bed)
    ensures Admissible(f, houseId, jump) <==>
      movePossible && (houseId == ANY_HOUSE || !f.isHouse || (houseId != 0 && f.houseId == houseId))
  {
  }

  /** The distance on a map where diagonal steps count once. */
  function Distance(o: Offset): nat {
    if Abs(o.x) > Abs(o.y) then Abs(o.x) else Abs(o.y)
  }

  /** The number of fields with a distance less than `d`. */
  function Square(d: nat): int {
    if d == 0 then 0 else (2 * d - 1) * (2 * d - 1)
  }

  /** When the spiral visits an offset: ring by ring, each north, west, south and then east. */
  function Turn(o: Offset): int {
    var d: int := Distance(o);
    Square(Distance(o)) + (if d == 0 then 0
                 else if o.x == d && o.y < d then d - 1 - o.y
                 else if o.y == -d then 2 * d + d - 1 - o.x
                 else if o.x == -d then 4 * d + o.y + d - 1
                 else 6 * d + o.x + d - 1)
  }

  lemma {:induction false} SquareGrows(d: nat, e: nat)
    requires d < e
    ensures Square(d + 1) <= Square(e)
    decreases e
  {
    if d + 1 < e {
      SquareGrows(d, e - 1);
      NextSquare(e - 1);
    }
  }

  lemma NextSquare(d: nat)
    ensures Square(d + 1) == Square(d) + if d == 0 then 1 else 8 * d
  {
  }

  lemma TurnInRing(o: Offset)
    ensures Square(Distance(o)) <= Turn(o) < Square(Distance(o) + 1)
  {
    hide Square;
    NextSquare(Distance(o));
  }

  /** Nearer offsets have their turn earlier, and no two offsets share a turn. */
  lemma TurnsDiffer(a: Offset, b: Offset)
    ensures Distance(a) < Distance(b) ==> Turn(a) < Turn(b)
    ensures Turn(a) == Turn(b) ==> a == b
  {
    hide Square;
    TurnInRing(a);
    TurnInRing(b);
    if Distance(a) < Distance(b) {
      SquareGrows(Distance(a), Distance(b));
    } else if Distance(b) < Distance(a) {
      SquareGrows(Distance(b), Distance(a));
    }
  }

  // ---------------------------------------------------------- walking

  datatype Direction = North | West | South | East

  /** Where the walk is in ring `d`, and which way it goes on. */
  ghost predicate OnRing(x: int, y: int, d: int, dir: Direction) {
    match dir
    case North => x == d && -d < y <= d - 1
    case West => y == -d && -d < x <= d && d > 0
    case South => x == -d && -d <= y < d
    case East => y == d && -d <= x <= d
  }

  /** The fields visited so far: each in its turn. */
  ghost predicate InTurns(visited: seq<Offset>) {
    forall k :: 0 <= k < |visited| ==> Turn(visited[k]) == k
  }

  /** A spiral of all turns of a square visits each of its offsets exactly once. */
  lemma EachOnce(visited: seq<Offset>, d: nat)
    requires InTurns(visited) && |visited| == Square(d + 1)
    ensures forall o :: o in visited <==> Distance(o) <= d
    ensures forall i, j :: 0 <= i < j < |visited| ==> visited[i] != visited[j]
  {
    hide Square, Turn, Distance;
    forall o ensures o in visited <==> Distance(o) <= d {
      TurnInRing(o);
      if Distance(o) <= d {
        SquareGrows(Distance(o), d + 1);
        assert 0 <= Turn(o) by { SquarePositive(Distance(o)); }
        TurnsDiffer(o, visited[Turn(o)]);
      } else {
        SquareGrows(d, Distance(o));
      }
    }
  }

  lemma SquarePositive(d: nat)
    ensures Square(d) >= 0
  {
    if d > 0 {
      SquareGrows(0, d);
    }
  }

  /** The first `n` turns. */
  lemma VisitedBefore(visited: seq<Offset>, o: Offset)
    requires InTurns(visited) && Turn(o) < |visited|
    ensures o in visited
  {
    TurnInRing(o);
    SquarePositive(Distance(o));
    TurnsDiffer(o, visited[Turn(o)]);
  }

  lemma NextTurn(x: int, y: int, d: nat, dir: Direction)
    requires OnRing(x, y, d, dir)
    ensures Distance(Offset(x, y)) == d
    ensures dir == North ==> Turn(Offset(x, y - 1)) == Turn(Offset(x, y)) + 1
    ensures dir == West ==> Turn(Offset(x - 1, y)) == Turn(Offset(x, y)) + 1
    ensures dir == South ==> Turn(Offset(x, y + 1)) == Turn(Offset(x, y)) + 1
    ensures dir == East ==> Turn(Offset(x + 1, y)) == Turn(Offset(x, y)) + 1
  {
    hide Square;
    NextSquare(d);
  }

  /**
    The admissible field nearest to a coordinate, the first one in the order of the
    spiral; none if and only if no field within the distance is admissible.
  */
  method SearchFreeField(fields: (int, int, int) -> Field, x: int, y: int, z: int, distance: int, houseId: nat, jump: bool)
      returns (found: Option<Offset>, ghost visited: seq<Offset>)
    ensures InTurns(visited)
    ensures found.Some? ==>
      && Distance(found.value) <= distance
      && Admissible(fields(x + found.value.x, y + found.value.y, z), houseId, jump)
      && (forall o: Offset :: Admissible(fields(x + o.x, y + o.y, z), houseId, jump) && o != found.value ==>
            Turn(found.value) < Turn(o) && Distance(found.value) <= Distance(o))
    ensures found.None? ==>
      && (distance >= 0 ==> |visited| == Square(distance + 1))
      && (forall o: Offset :: Distance(o) <= distance ==> !Admissible(fields(x + o.x, y + o.y, z), houseId, jump))
  {
    hide Square, Turn, Distance, Admissible;
    found, visited := None, [];
    var ox: int, oy: int, d: int, dir := 0, 0, 0, East;
    Origin();
    while d <= distance
      invariant 0 <= d && OnRing(ox, oy, d, dir) && InTurns(visited) && Turn(Offset(ox, oy)) == |visited|
      invariant forall o :: o in visited ==> !Admissible(fields(x + o.x, y + o.y, z), houseId, jump)
      invariant d > distance >= 0 ==> d == distance + 1 && |visited| == Square(d)
      decreases distance + 1 - d, Square(d + 1) - |visited|
    {
      ghost var here := Offset(ox, oy);
      NextTurn(ox, oy, d, dir);
      TurnInRing(here);
      var field := fields(x + ox, y + oy, z);
      var movePossible := field.jumpable;
      if !jump {
        movePossible := field.bank && !field.unpass;
        if movePossible && field.avoid {
          movePossible := field.bed;
        }
      }
      AdmissibleIff(field, houseId, jump, movePossible);
      if movePossible {
        if houseId == ANY_HOUSE || !field.isHouse || (houseId != 0 && field.houseId == houseId) {
          OthersLater(visited, here);
          return Some(Offset(ox, oy)), visited;
        }
      }
      visited := visited + [here];
      match dir
      case North =>
        oy := oy - 1;
        if oy <= -d { dir := West; }
      case West =>
        ox := ox - 1;
        if ox <= -d { dir := South; }
      case South =>
        oy := oy + 1;
        if oy >= d { dir := East; }
      case East =>
        ox := ox + 1;
        if ox > d {
          d := ox;
          dir := North;
          RingStart(d, visited);
        }
    }
    if distance >= 0 {
      EachOnce(visited, distance);
    }
  }

  lemma Origin()
    ensures Turn(Offset(0, 0)) == 0
  {
  }

  /** The first field of a ring has its turn after all fields of the rings inside. */
  lemma RingStart(d: nat, visited: seq<Offset>)
    requires d > 0 && Turn(Offset(d, d - 1)) == |visited|
    ensures |visited| == Square(d)
  {
  }

  lemma OthersLater(visited: seq<Offset>, here: Offset)
    requires InTurns(visited) && Turn(here) == |visited|
    ensures forall o :: o !in visited && o != here ==> Turn(here) < Turn(o) && Distance(here) <= Distance(o)
  {
    hide Turn, Distance;
    forall o | o !in visited && o != here ensures Turn(here) < Turn(o) && Distance(here) <= Distance(o) {
      TurnsDiffer(o, here);
      if Turn(o) < |visited| {
        VisitedBefore(visited, o);
      }
    }
  }
}
