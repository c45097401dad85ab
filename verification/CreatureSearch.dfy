/**
  Searching the creatures in a box: a cursor walks row by row over the blocks the
  box touches, and in each block along its chain.
*/
module CreatureSearch {
  import opened Common
  import opened CreatureChains

  /** What is searched for: a box, a creature to skip, and a bit for each kind. */
  datatype Box = Box(startX: int, startY: int, endX: int, endY: int, skip: nat, mask: nat)

  predicate Wanted(box: Box, id: nat, c: Creature) {
    && id != box.skip
    && box.startX <= c.x <= box.endX && box.startY <= c.y <= box.endY
    && (c.kind == Player ==> box.mask % 2 == 1)
    && (c.kind == Npc ==> box.mask / 2 % 2 == 1)
    && (c.kind == Monster ==> box.mask / 4 % 2 == 1)
  }

  lemma WantedOrSkipped(box: Box, id: nat, c: Creature)
    ensures Wanted(box, id, c) <==>
      !(id == box.skip || c.x < box.startX || c.x > box.endX || c.y < box.startY || c.y > box.endY
        || (c.kind.Player? && box.mask % 2 == 0)
        || (c.kind.Npc? && box.mask / 2 % 2 == 0)
        || (c.kind.Monster? && box.mask / 4 % 2 == 0))
  {
  }

  // ---------------------------------------------------------- what is still to come

  /** The blocks behind a block, row by row. */
  ghost function BlocksAfter(box: Box, x: int, y: int): (r: seq<Block>)
    decreases Div16(box.endY) - y, Div16(box.endX) - x
  {
    if x + 1 <= Div16(box.endX) then [Block(x + 1, y)] + BlocksAfter(box, x + 1, y)
    else if y + 1 <= Div16(box.endY) then
      [Block(Div16(box.startX), y + 1)] + BlocksAfter(box, Div16(box.startX), y + 1)
    else []
  }

  /** The members of the chains of some blocks; a block outside of the map has none. */
  ghost function Members(chains: map<Block, seq<nat>>, blocks: seq<Block>): (r: seq<nat>) {
    if blocks == [] then []
    else ChainAt(chains, blocks[0]) + Members(chains, blocks[1..])
  }

  ghost function ChainAt(chains: map<Block, seq<nat>>, b: Block): seq<nat> {
    if b in chains then chains[b] else []
  }

  /** The wanted ones of some creatures, in order. */
  ghost function Selected(box: Box, creatures: map<nat, Creature>, ids: seq<nat>): (r: seq<nat>) {
    if ids == [] then []
    else
      var rest := Selected(box, creatures, ids[1..]);
      if ids[0] in creatures && Wanted(box, ids[0], creatures[ids[0]]) then [ids[0]] + rest else rest
  }

  // ---------------------------------------------------------- each creature once

  lemma {:induction false} BlocksOrdered(box: Box, x: int, y: int)
    ensures forall b :: b in BlocksAfter(box, x, y) ==> b.y > y || (b.y == y && b.x > x)
    ensures forall i, j :: 0 <= i < j < |BlocksAfter(box, x, y)| ==> BlocksAfter(box, x, y)[i] != BlocksAfter(box, x, y)[j]
    decreases Div16(box.endY) - y, Div16(box.endX) - x
  {
    if x + 1 <= Div16(box.endX) {
      BlocksOrdered(box, x + 1, y);
    } else if y + 1 <= Div16(box.endY) {
      BlocksOrdered(box, Div16(box.startX), y + 1);
    }
  }

  /** No block that the box touches is left out. */
  lemma {:induction false} BlocksComplete(box: Box, x: int, y: int, b: Block)
    requires Div16(box.startX) <= b.x <= Div16(box.endX) && b.y <= Div16(box.endY)
    requires b.y > y || (b.y == y && b.x > x)
    ensures b in BlocksAfter(box, x, y)
    decreases Div16(box.endY) - y, Div16(box.endX) - x
  {
    if x + 1 <= Div16(box.endX) {
      if b != Block(x + 1, y) {
        BlocksComplete(box, x + 1, y, b);
      }
    } else if b != Block(Div16(box.startX), y + 1) {
      BlocksComplete(box, Div16(box.startX), y + 1, b);
    }
  }

  lemma {:induction false} MembersContain(chains: map<Block, seq<nat>>, blocks: seq<Block>, id: nat)
    ensures id in Members(chains, blocks) <==> exists i :: 0 <= i < |blocks| && id in ChainAt(chains, blocks[i])
  {
    if blocks != [] {
      MembersContain(chains, blocks[1..], id);
      if id in Members(chains, blocks[1..]) {
        var i :| 0 <= i < |blocks[1..]| && id in ChainAt(chains, blocks[1..][i]);
        assert id in ChainAt(chains, blocks[i + 1]);
      }
      if i :| 0 < i < |blocks| && id in ChainAt(chains, blocks[i]) {
        assert id in ChainAt(chains, blocks[1..][i - 1]);
      }
    }
  }

  lemma {:induction false} MembersDistinct(first: map<Block, nat>, creatures: map<nat, Creature>,
                                           chains: map<Block, seq<nat>>, blocks: seq<Block>)
    requires Consistent(first, creatures, chains)
    requires forall i, j :: 0 <= i < j < |blocks| ==> blocks[i] != blocks[j]
    ensures Distinct(Members(chains, blocks))
  {
    hide Linked;
    if blocks != [] {
      var here, rest := ChainAt(chains, blocks[0]), Members(chains, blocks[1..]);
      MembersDistinct(first, creatures, chains, blocks[1..]);
      forall id | id in here ensures id !in rest {
        MembersContain(chains, blocks[1..], id);
        PlacedAtOwn(first, creatures, chains, id);
      }
      assert blocks[0] in chains ==> ChainOk(first[blocks[0]], creatures, blocks[0], here);
      JoinDistinct(here, rest);
    }
  }

  lemma JoinDistinct(a: seq<nat>, b: seq<nat>)
    requires Distinct(a) && Distinct(b) && forall id :: id in a ==> id !in b
    ensures Distinct(a + b)
  {
    forall i, j | 0 <= i < j < |a + b| ensures (a + b)[i] != (a + b)[j] {
      if i < |a| {
        assert (a + b)[i] in a;
      }
    }
  }

  lemma {:induction false} SelectedContain(box: Box, creatures: map<nat, Creature>, ids: seq<nat>)
    ensures forall id :: id in Selected(box, creatures, ids)
                         <==> id in ids && id in creatures && Wanted(box, id, creatures[id])
    ensures Distinct(ids) ==> Distinct(Selected(box, creatures, ids))
  {
    if ids != [] {
      SelectedContain(box, creatures, ids[1..]);
      assert ids == [ids[0]] + ids[1..];
      assert Distinct(ids) ==> Distinct(ids[1..]) && ids[0] !in ids[1..];
    }
  }

  /** What a new search has in front of it: every wanted creature on the map, each once. */
  ghost predicate IsAnswer(box: Box, creatures: map<nat, Creature>, chains: map<Block, seq<nat>>, found: seq<nat>) {
    && Distinct(found)
    && (forall id :: id in found <==> Placed(chains, id) && id in creatures && Wanted(box, id, creatures[id]))
  }

  lemma SearchIsComplete(box: Box, first: map<Block, nat>, creatures: map<nat, Creature>, chains: map<Block, seq<nat>>)
    requires Consistent(first, creatures, chains)
    ensures IsAnswer(box, creatures, chains,
                     Selected(box, creatures, Members(chains, BlocksAfter(box, Div16(box.startX) - 1, Div16(box.startY)))))
  {
    hide Linked, ChainOk;
    var x, y := Div16(box.startX) - 1, Div16(box.startY);
    var blocks := BlocksAfter(box, x, y);
    var ids := Members(chains, blocks);
    BlocksOrdered(box, x, y);
    MembersDistinct(first, creatures, chains, blocks);
    SelectedContain(box, creatures, ids);
    forall id | Placed(chains, id) && id in creatures && Wanted(box, id, creatures[id]) ensures id in ids {
      var b := BlockOf(creatures[id].x, creatures[id].y);
      PlacedAtOwn(first, creatures, chains, id);
      BlocksComplete(box, x, y, b);
      var i :| 0 <= i < |blocks| && blocks[i] == b;
      assert id in ChainAt(chains, blocks[i]);
      MembersContain(chains, blocks, id);
    }
    forall id | id in ids ensures Placed(chains, id) {
      MembersContain(chains, blocks, id);
    }
  }

  /** A cursor in front of the first block. */
  lemma NewSearch(box: Box, first: map<Block, nat>, creatures: map<nat, Creature>, chains: map<Block, seq<nat>>)
    requires Consistent(first, creatures, chains)
    ensures Linked(0, [], creatures)
    ensures var blocks := BlocksAfter(box, Div16(box.startX) - 1, Div16(box.startY));
      IsAnswer(box, creatures, chains, Selected(box, creatures, [] + Members(chains, blocks)))
  {
    hide Members, Selected, BlocksAfter, IsAnswer, Consistent, Wanted, Div16;
    SearchIsComplete(box, first, creatures, chains);
    var ids := Members(chains, BlocksAfter(box, Div16(box.startX) - 1, Div16(box.startY)));
    assert [] + ids == ids;
  }

  // ---------------------------------------------------------- the cursor

  class FindCreatures {
    const index: CreatureIndex
    var box: Box
    var blockX: int
    var blockY: int
    var actId: nat
    var finished: bool
    /** The rest of the chain the cursor is in. */
    ghost var rest: seq<nat>

    ghost predicate Valid()
      reads this, index
    {
      index.Valid() && Linked(actId, rest, index.creatures)
    }

    /** The creatures that are still to be found. */
    ghost function Remaining(): seq<nat>
      reads this, index
    {
      if finished then []
      else Selected(box, index.creatures, rest + Members(index.chains, BlocksAfter(box, blockX, blockY)))
    }

    /** A search around a coordinate. */
    constructor (index: CreatureIndex, radiusX: int, radiusY: int, centerX: int, centerY: int, mask: nat)
      requires index.Valid()
      ensures Valid() && this.index == index
      ensures IsAnswer(Box(centerX - radiusX, centerY - radiusY, centerX + radiusX, centerY + radiusY, 0, mask),
                       index.creatures, index.chains, Remaining())
    {
      this.index := index;
      box := Box(centerX - radiusX, centerY - radiusY, centerX + radiusX, centerY + radiusY, 0, mask);
      blockX := Div16(centerX - radiusX) - 1;
      blockY := Div16(centerY - radiusY);
      actId := 0;
      finished := false;
      rest := [];
      new;
      hide Linked, Members, Selected, BlocksAfter, IsAnswer, Consistent, Wanted, Div16;
      NewSearch(box, index.first, index.creatures, index.chains);
    }

    /** A search around a creature, which is not found itself. */
    constructor Around(index: CreatureIndex, radiusX: int, radiusY: int, id: nat, mask: nat)
      requires index.Valid()
      ensures Valid() && this.index == index
      ensures id !in index.creatures ==> Remaining() == []
      ensures id in index.creatures ==>
        var c := index.creatures[id];
        IsAnswer(Box(c.x - radiusX, c.y - radiusY, c.x + radiusX, c.y + radiusY, id, mask),
                 index.creatures, index.chains, Remaining())
    {
      this.index := index;
      var c := if id in index.creatures then index.creatures[id] else Creature(0, 0, Player, 0);
      var b := Box(c.x - radiusX, c.y - radiusY, c.x + radiusX, c.y + radiusY, id, mask);
      box := b;
      blockX := Div16(b.startX) - 1;
      blockY := Div16(b.startY);
      actId := 0;
      finished := id !in index.creatures;
      rest := [];
      new;
      hide Linked, Members, Selected, BlocksAfter, IsAnswer, Consistent, Wanted, Div16;
      NewSearch(box, index.first, index.creatures, index.chains);
    }

    /** The first creature that is still to be found, or 0 when there is none. */
    method GetNext() returns (id: nat)
      requires Valid()
      modifies this
      ensures Valid() && box == old(box)
      ensures old(Remaining()) == [] ==> id == 0 && finished
      ensures old(Remaining()) != [] ==> id == old(Remaining())[0] && id != 0 && Remaining() == old(Remaining())[1..]
    {
      if finished {
        return 0;
      }
      id := 0;
      while true
        invariant Valid() && box == old(box) && !finished && Remaining() == old(Remaining())
        decreases |BlocksAfter(box, blockX, blockY)|, |rest|
      {
        hide Members, Selected, Linked, BlocksAfter, Wanted, Div16;
        if actId == 0 {
          NextChain();
          if finished {
            return 0;
          }
        }
        assert actId in index.creatures && actId == rest[0] by { ChainStart(actId, rest, index.creatures); }
        // The server logs an error for a number in a chain without a creature.
        var c := index.creatures[actId];
        Advance(box, index.creatures, rest, Members(index.chains, BlocksAfter(box, blockX, blockY)));
        id := actId;
        ChainStart(actId, rest, index.creatures);
        actId := c.next;
        rest := rest[1..];
        var skipped := id == box.skip || c.x < box.startX || c.x > box.endX || c.y < box.startY || c.y > box.endY
          || (c.kind.Player? && box.mask % 2 == 0)
          || (c.kind.Npc? && box.mask / 2 % 2 == 0)
          || (c.kind.Monster? && box.mask / 4 % 2 == 0);
        WantedOrSkipped(box, id, c);
        if !skipped {
          return;
        }
      }
    }

    /** Goes on over empty blocks to the next chain, or finishes. */
    method NextChain()
      requires Valid() && !finished && actId == 0
      modifies this
      ensures Valid() && box == old(box) && Remaining() == old(Remaining())
      ensures finished ==> Remaining() == []
      ensures !finished ==>
        actId != 0 && |BlocksAfter(box, blockX, blockY)| < |BlocksAfter(box, old(blockX), old(blockY))|
    {
      hide Members, Selected, Linked, BlocksAfter, Consistent, Div16, ChainAt;
      ChainEnd(rest, index.creatures);
      while actId == 0
        invariant Valid() && box == old(box) && !finished && Remaining() == old(Remaining())
        invariant actId == 0 ==> rest == []
        invariant |BlocksAfter(box, blockX, blockY)| <= |BlocksAfter(box, old(blockX), old(blockY))|
        invariant actId != 0 ==> |BlocksAfter(box, blockX, blockY)| < |BlocksAfter(box, old(blockX), old(blockY))|
        decreases |BlocksAfter(box, blockX, blockY)|
      {
        ghost var x, y := blockX, blockY;
        blockX := blockX + 1;
        if blockX > Div16(box.endX) {
          blockX := Div16(box.startX);
          blockY := blockY + 1;
          if blockY > Div16(box.endY) {
            LastBlock(box, index.creatures, index.chains, x, y);
            finished := true;
            return;
          }
        }
        var b := Block(blockX, blockY);
        NextBlock(box, index.chains, x, y, b);
        HeadOf(index.first, index.creatures, index.chains, b);
        actId := if b in index.first then index.first[b] else 0;
        rest := ChainAt(index.chains, b);
      }
    }

    /** Every wanted creature, as a caller collects them one by one. */
    method All() returns (found: seq<nat>)
      requires Valid()
      modifies this
      ensures found == old(Remaining()) && finished
    {
      found := [];
      while true
        invariant Valid() && old(Remaining()) == found + Remaining()
        decreases |Remaining()|
      {
        hide *;
        ghost var all, before := old(Remaining()), Remaining();
        var id := GetNext();
        if id == 0 {
          assert before == [];
          assert found + [] == found;
          return;
        }
        OneMoreFound(all, found, before, id);
        found := found + [id];
      }
    }
  }

  lemma OneMoreFound(all: seq<nat>, found: seq<nat>, before: seq<nat>, id: nat)
    requires all == found + before && before != [] && id == before[0]
    ensures all == found + [id] + before[1..] && |before[1..]| < |before|
  {
  }

  lemma ChainEnd(ids: seq<nat>, creatures: map<nat, Creature>)
    requires Linked(0, ids, creatures)
    ensures ids == []
  {
  }

  /** The chain of a block, also of one outside of the map. */
  lemma HeadOf(first: map<Block, nat>, creatures: map<nat, Creature>, chains: map<Block, seq<nat>>, b: Block)
    requires Consistent(first, creatures, chains)
    ensures var head := if b in first then first[b] else 0;
      Linked(head, ChainAt(chains, b), creatures) && (head == 0 ==> ChainAt(chains, b) == [])
  {
    assert b in chains ==> ChainOk(first[b], creatures, b, chains[b]);
  }

  lemma NextBlock(box: Box, chains: map<Block, seq<nat>>, x: int, y: int, b: Block)
    requires b == if x + 1 <= Div16(box.endX) then Block(x + 1, y) else Block(Div16(box.startX), y + 1)
    requires x + 1 > Div16(box.endX) ==> y + 1 <= Div16(box.endY)
    ensures |BlocksAfter(box, b.x, b.y)| < |BlocksAfter(box, x, y)|
    ensures [] + Members(chains, BlocksAfter(box, x, y)) == ChainAt(chains, b) + Members(chains, BlocksAfter(box, b.x, b.y))
  {
    var ahead := BlocksAfter(box, x, y);
    assert ahead == [b] + BlocksAfter(box, b.x, b.y);
    assert ahead[1..] == BlocksAfter(box, b.x, b.y);
  }

  lemma LastBlock(box: Box, creatures: map<nat, Creature>, chains: map<Block, seq<nat>>, x: int, y: int)
    requires x + 1 > Div16(box.endX) && y + 1 > Div16(box.endY)
    ensures Selected(box, creatures, [] + Members(chains, BlocksAfter(box, x, y))) == []
  {
    assert [] + Members(chains, BlocksAfter(box, x, y)) == [];
  }

  lemma ChainStart(head: nat, ids: seq<nat>, creatures: map<nat, Creature>)
    requires Linked(head, ids, creatures) && head != 0
    ensures ids != [] && head == ids[0] && head in creatures && Linked(creatures[head].next, ids[1..], creatures)
  {
  }

  /** Going past one creature of the current chain. */
  lemma Advance(box: Box, creatures: map<nat, Creature>, rest: seq<nat>, more: seq<nat>)
    requires rest != [] && rest[0] in creatures
    ensures var after := Selected(box, creatures, rest[1..] + more);
      Selected(box, creatures, rest + more) ==
        (if Wanted(box, rest[0], creatures[rest[0]]) then [rest[0]] + after else after)
  {
    assert (rest + more)[1..] == rest[1..] + more && (rest + more)[0] == rest[0];
  }
}
