/**
  The spatial index of creatures: every 16x16 block of the map heads a chain of
  the creatures in it, linked by their numbers.  Searches walk over the chains of
  all blocks that a box touches.
*/
module CreatureChains {
  import opened Common

  datatype Block = Block(x: int, y: int)

  datatype Kind = Player | Npc | Monster

  /** A creature, with the number of the next one in its chain, 0 at the end. */
  datatype Creature = Creature(x: int, y: int, kind: Kind, next: nat)

  /** Division that cuts towards zero. */
  function Div16(a: int): int {
    if a >= 0 then a / 16 else -((-a) / 16)
  }

  function BlockOf(x: int, y: int): Block {
    Block(Div16(x), Div16(y))
  }

  /** A block covers 16 fields in each direction; around zero it is 31, as negative
      coordinates are cut towards zero. */
  lemma BlockCovers(x: int, y: int)
    ensures var b := BlockOf(x, y);
      && (x >= 0 ==> 16 * b.x <= x < 16 * b.x + 16) && (x <= 0 ==> 16 * b.x - 16 < x <= 16 * b.x)
      && (y >= 0 ==> 16 * b.y <= y < 16 * b.y + 16) && (y <= 0 ==> 16 * b.y - 16 < y <= 16 * b.y)
  {
  }

  /** A coordinate of zero stands for a creature's own. */
  function OwnOr(coord: int, own: int): int {
    if coord == 0 then own else coord
  }

  /** The chain of a creature that goes to a field becomes that of the field's block. */
  predicate Follows(c: Creature, x: int, y: int) {
    BlockOf(x, y) in {BlockOf(c.x, c.y), BlockOf(OwnOr(x, c.x), OwnOr(y, c.y))}
  }

  /** Away from the coordinates of zero, which the map does not have, it always does. */
  lemma PositiveFollows(c: Creature, x: int, y: int)
    requires x != 0 && y != 0
    ensures Follows(c, x, y)
  {
  }

  /** A step to the coordinate zero leaves the creature in the chain it was in. */
  lemma ZeroDoesNotFollow()
    ensures !Follows(Creature(100, 100, Player, 0), 0, 100)
  {
  }

  // ---------------------------------------------------------- chains

  /** The numbers `ids`, linked in this order from `head`. */
  ghost predicate Linked(head: nat, ids: seq<nat>, creatures: map<nat, Creature>)
    decreases |ids|
  {
    if ids == [] then head == 0
    else head == ids[0] != 0 && head in creatures && Linked(creatures[head].next, ids[1..], creatures)
  }

  /** A chain does not notice changes to creatures outside of it. */
  lemma {:induction false} LinkedFrame(head: nat, ids: seq<nat>, a: map<nat, Creature>, b: map<nat, Creature>)
    requires Linked(head, ids, a)
    requires forall id :: id in ids && id in a ==> id in b && b[id].next == a[id].next
    ensures Linked(head, ids, b)
    decreases |ids|
  {
    if ids != [] {
      assert ids[0] in ids && forall id :: id in ids[1..] ==> id in ids;
      LinkedFrame(a[head].next, ids[1..], a, b);
    }
  }

  /** The rest of a chain is a chain. */
  lemma {:induction false} LinkedAt(head: nat, ids: seq<nat>, creatures: map<nat, Creature>, i: nat)
    requires Linked(head, ids, creatures) && i < |ids|
    ensures ids[i] != 0 && ids[i] in creatures && Linked(creatures[ids[i]].next, ids[i + 1..], creatures)
    decreases i
  {
    if i > 0 {
      LinkedAt(creatures[head].next, ids[1..], creatures, i - 1);
      assert ids[1..][i - 1 + 1..] == ids[i + 1..];
    } else {
      assert ids[1..] == ids[0 + 1..];
    }
  }

  /** Unlinking the member behind the `i`-th. */
  lemma {:induction false} Unlinked(head: nat, ids: seq<nat>, creatures: map<nat, Creature>, i: nat)
    requires Linked(head, ids, creatures) && Distinct(ids) && i + 1 < |ids|
    requires ids[i] in creatures && ids[i + 1] in creatures
    ensures Linked(head, ids[..i + 1] + ids[i + 2..],
                   creatures[ids[i] := creatures[ids[i]].(next := creatures[ids[i + 1]].next)])
    decreases i
  {
    var p := creatures[ids[i]].(next := creatures[ids[i + 1]].next);
    var after := creatures[ids[i] := p];
    if i == 0 {
      LinkedAt(head, ids, creatures, 1);
      assert ids[..1] + ids[2..] == [ids[0]] + ids[2..];
      assert ids[0] !in ids[2..];
      LinkedFrame(creatures[ids[1]].next, ids[2..], creatures, after);
      assert ([ids[0]] + ids[2..])[1..] == ids[2..];
    } else {
      Unlinked(creatures[head].next, ids[1..], creatures, i - 1);
      assert ids[1..][..i] + ids[1..][i + 1..] == (ids[..i + 1] + ids[i + 2..])[1..];
      assert ids[0] != ids[i];
    }
  }

  // ---------------------------------------------------------- the index

  /** `chains` is what the links mean: block by block the creatures in it. */
  ghost predicate Consistent(first: map<Block, nat>, creatures: map<nat, Creature>, chains: map<Block, seq<nat>>) {
    && first.Keys == chains.Keys
    && (forall b :: b in chains ==> ChainOk(first[b], creatures, b, chains[b]))
  }

  ghost predicate ChainOk(head: nat, creatures: map<nat, Creature>, b: Block, ids: seq<nat>) {
    && Linked(head, ids, creatures) && Distinct(ids)
    && (forall id :: id in ids ==> id in creatures && BlockOf(creatures[id].x, creatures[id].y) == b)
  }

  ghost predicate Placed(chains: map<Block, seq<nat>>, id: nat) {
    exists b :: b in chains && id in chains[b]
  }

  ghost predicate NotPlaced(chains: map<Block, seq<nat>>, id: nat) {
    forall b :: b in chains ==> id !in chains[b]
  }

  /** Two states of the creatures that differ at most in the links. */
  ghost predicate SamePlaces(a: map<nat, Creature>, b: map<nat, Creature>) {
    a.Keys == b.Keys && forall k :: k in a ==> b[k] == a[k].(next := b[k].next)
  }

  /** A creature is in the chain of its own block or in none. */
  lemma PlacedAtOwn(first: map<Block, nat>, creatures: map<nat, Creature>, chains: map<Block, seq<nat>>, id: nat)
    requires Consistent(first, creatures, chains) && Placed(chains, id)
    ensures id != 0 && id in creatures
    ensures forall b :: b in chains ==> (id in chains[b] <==> b == BlockOf(creatures[id].x, creatures[id].y))
  {
    var a :| a in chains && id in chains[a];
    assert ChainOk(first[a], creatures, a, chains[a]);
    var i :| 0 <= i < |chains[a]| && chains[a][i] == id;
    LinkedAt(first[a], chains[a], creatures, i);
    forall b | b in chains && id in chains[b] ensures a == b {
      assert ChainOk(first[b], creatures, b, chains[b]);
    }
  }

  class CreatureIndex {
    var creatures: map<nat, Creature>
    var first: map<Block, nat>
    ghost var chains: map<Block, seq<nat>>

    ghost predicate Valid()
      reads this
    {
      Consistent(first, creatures, chains)
    }

    /** Whether a creature is in a chain, which is that of its own block and no other. */
    ghost predicate OnMap(id: nat)
      reads this
    {
      Placed(chains, id)
    }

    constructor (blocks: set<Block>, creatures: map<nat, Creature>)
      requires 0 !in creatures
      ensures Valid() && this.creatures == creatures && chains == map b | b in blocks :: []
    {
      this.creatures := creatures;
      first := map b | b in blocks :: 0;
      chains := map b | b in blocks :: [];
    }

    /** Puts a creature in front of the chain of a coordinate; zero stands for its own.
        The chains are in order once the creature is there. */
    method InsertChainCreature(id: nat, coordX: int, coordY: int)
      requires Valid() && id in creatures && id != 0 && !OnMap(id)
      requires BlockOf(OwnOr(coordX, creatures[id].x), OwnOr(coordY, creatures[id].y)) in first
      modifies this
      ensures first.Keys == old(first).Keys && SamePlaces(old(creatures), creatures) && id in creatures
      ensures var x, y := OwnOr(coordX, creatures[id].x), OwnOr(coordY, creatures[id].y);
        && Consistent(first, creatures[id := creatures[id].(x := x, y := y)], chains)
        && BlockOf(x, y) in old(chains) && chains == old(chains)[BlockOf(x, y) := [id] + old(chains)[BlockOf(x, y)]]
      ensures forall k :: OnMap(k) <==> k == id || old(OnMap(k))
    {
      hide Linked, Distinct, ChainOk;
      var x := if coordX == 0 then creatures[id].x else coordX;
      var y := if coordY == 0 then creatures[id].y else coordY;
      var b := BlockOf(x, y);
      assert NotPlaced(chains, id);
      InsertKeeps(first, creatures, chains, b, id, x, y);
      InsertPlaces(chains, b, id);
      ghost var there := creatures[id := creatures[id].(next := first[b], x := x, y := y)];
      creatures := creatures[id := creatures[id].(next := first[b])];
      first := first[b := id];
      chains := chains[b := [id] + chains[b]];
      assert creatures[id := creatures[id].(x := x, y := y)] == there;
    }

    /** Takes a creature out of the chain of its own block. */
    method DeleteChainCreature(id: nat) returns (ghost i: nat)
      requires Valid() && OnMap(id)
      modifies this
      ensures Valid() && creatures.Keys == old(creatures).Keys && first.Keys == old(first).Keys
      ensures id in old(creatures) && id != 0
      ensures var b := BlockOf(old(creatures)[id].x, old(creatures)[id].y);
        && b in old(chains) && i < |old(chains)[b]| && old(chains)[b][i] == id && old(Distinct(chains[b]))
        && chains == old(chains)[b := old(chains)[b][..i] + old(chains)[b][i + 1..]]
      ensures forall k :: k in creatures ==> creatures[k] == old(creatures)[k].(next := creatures[k].next)
    {
      hide Linked, Distinct, BlockOf, Consistent, Placed;
      PlacedAtOwn(first, creatures, chains, id);
      OwnChain(first, creatures, chains, id);
      var b := BlockOf(creatures[id].x, creatures[id].y);
      ghost var ids := chains[b];
      ChainHead(first[b], ids, creatures, id);
      if first[b] == id {
        i := 0;
        assert ids[..0] + ids[1..] == ids[1..];
        RemoveHead(first, creatures, chains, b);
        first := first[b := creatures[id].next];
        chains := chains[b := ids[..0] + ids[1..]];
      } else {
        var current;
        current, i := FindPredecessor(first[b], id, ids);
        RemoveMember(first, creatures, chains, b, i);
        creatures := creatures[current := creatures[current].(next := creatures[id].next)];
        chains := chains[b := ids[..i + 1] + ids[i + 2..]];
        i := i + 1;
      }
    }

    /** A creature appears on the map: it joins the chain of its block. */
    method NotifyCreate(id: nat)
      requires Valid() && id in creatures && id != 0 && !OnMap(id)
      requires BlockOf(creatures[id].x, creatures[id].y) in first
      modifies this
      ensures Valid() && first.Keys == old(first).Keys && SamePlaces(old(creatures), creatures)
      ensures forall k :: OnMap(k) <==> k == id || old(OnMap(k))
    {
      hide Consistent;
      InsertChainCreature(id, 0, 0);
      assert creatures[id := creatures[id].(x := creatures[id].x, y := creatures[id].y)] == creatures;
    }

    /** A creature leaves the map. */
    method NotifyDelete(id: nat)
      requires Valid() && OnMap(id)
      modifies this
      ensures Valid() && first.Keys == old(first).Keys && SamePlaces(old(creatures), creatures)
      ensures forall k :: OnMap(k) <==> k != id && old(OnMap(k))
    {
      PlacedAtOwn(first, creatures, chains, id);
      ghost var i := DeleteChainCreature(id);
      DeletePlaces(old(chains), BlockOf(old(creatures)[id].x, old(creatures)[id].y), i);
    }

    /** Moves a creature to the chain of the block it is about to enter; a zero is taken
        for its own coordinate, so the chain may be that of another block. */
    method MoveChainCreature(id: nat, x: int, y: int)
      requires Valid() && OnMap(id) && id in creatures && BlockOf(x, y) in first
      requires BlockOf(OwnOr(x, creatures[id].x), OwnOr(y, creatures[id].y)) in first
      modifies this
      ensures first.Keys == old(first).Keys && SamePlaces(old(creatures), creatures) && id in creatures
      ensures Consistent(first, creatures[id := creatures[id].(x := x, y := y)], chains) <==> Follows(creatures[id], x, y)
      ensures forall k :: OnMap(k) <==> old(OnMap(k))
    {
      hide Linked, Distinct, BlockOf, ChainOk, Consistent;
      PlacedAtOwn(first, creatures, chains, id);
      if BlockOf(x, y) != BlockOf(creatures[id].x, creatures[id].y) {
        NotifyDelete(id);
        InsertChainCreature(id, x, y);
        var c := creatures[id];
        Elsewhere(first, creatures, chains, id, OwnOr(x, c.x), OwnOr(y, c.y), x, y);
      } else {
        StepInside(first, creatures, chains, id, x, y);
      }
    }

    /** A creature has gone to another field: its chain follows, then its position. */
    method NotifyGo(id: nat, x: int, y: int)
      requires Valid() && OnMap(id) && id in creatures && BlockOf(x, y) in first
      requires BlockOf(OwnOr(x, creatures[id].x), OwnOr(y, creatures[id].y)) in first
      modifies this
      ensures Valid() <==> Follows(old(creatures)[id], x, y)
      ensures first.Keys == old(first).Keys && creatures.Keys == old(creatures).Keys
      ensures id in creatures && creatures[id].x == x && creatures[id].y == y
      ensures SamePlaces(old(creatures) - {id}, creatures - {id})
      ensures forall k :: OnMap(k) <==> old(OnMap(k))
    {
      hide Consistent, BlockOf, Placed;
      MoveChainCreature(id, x, y);
      creatures := creatures[id := creatures[id].(x := x, y := y)];
    }

    /** The member of a chain in front of another. */
    method FindPredecessor(head: nat, id: nat, ghost ids: seq<nat>) returns (current: nat, ghost i: nat)
      requires Linked(head, ids, creatures) && id in ids && head != id
      ensures i + 1 < |ids| && current == ids[i] && ids[i + 1] == id && current in creatures
    {
      current := head;
      i := 0;
      ChainHead(head, ids, creatures, id);
      assert ids[..1] == [ids[0]];
      while creatures[current].next != id
        invariant i < |ids| && current == ids[i] && current in creatures && id !in ids[..i + 1]
        decreases |ids| - i
      {
        hide Linked;
        // The server logs an error when the chain or a creature ends here.
        NextMember(head, ids, creatures, i, id);
        current := creatures[current].next;
        i := i + 1;
      }
      NextMember(head, ids, creatures, i, id);
    }
  }

  lemma ChainHead(head: nat, ids: seq<nat>, creatures: map<nat, Creature>, id: nat)
    requires Linked(head, ids, creatures) && id in ids
    ensures ids != [] && head == ids[0] && head in creatures
  {
  }

  /** The chain goes on as long as a member of it has not been met. */
  lemma NextMember(head: nat, ids: seq<nat>, creatures: map<nat, Creature>, i: nat, id: nat)
    requires Linked(head, ids, creatures) && i < |ids| && id in ids && id !in ids[..i + 1]
    ensures ids[i] in creatures && i + 1 < |ids| && creatures[ids[i]].next == ids[i + 1] && ids[i + 1] in creatures
    ensures ids[i + 1] != id ==> id !in ids[..i + 2]
  {
    LinkedAt(head, ids, creatures, i);
    assert ids == ids[..i + 1] + ids[i + 1..];
    assert ids[..i + 2] == ids[..i + 1] + [ids[i + 1]];
  }

  lemma OwnChain(first: map<Block, nat>, creatures: map<nat, Creature>, chains: map<Block, seq<nat>>, id: nat)
    requires Consistent(first, creatures, chains) && Placed(chains, id) && id in creatures
    ensures first.Keys == chains.Keys
    ensures var b := BlockOf(creatures[id].x, creatures[id].y);
      b in chains && b in first && id in chains[b] && ChainOk(first[b], creatures, b, chains[b])
  {
    PlacedAtOwn(first, creatures, chains, id);
    assert forall a :: a in chains ==> ChainOk(first[a], creatures, a, chains[a]);
  }

  lemma RemoveHead(first: map<Block, nat>, creatures: map<nat, Creature>, chains: map<Block, seq<nat>>, b: Block)
    requires Consistent(first, creatures, chains) && b in chains && chains[b] != [] && first[b] in creatures
    ensures Consistent(first[b := creatures[first[b]].next], creatures, chains[b := chains[b][1..]])
  {
    assert ChainOk(first[b], creatures, b, chains[b]);
    var f, c := first[b := creatures[first[b]].next], chains[b := chains[b][1..]];
    forall a | a in c ensures ChainOk(f[a], creatures, a, c[a]) {
      assert ChainOk(first[a], creatures, a, chains[a]);
    }
  }

  lemma RemoveMember(first: map<Block, nat>, creatures: map<nat, Creature>, chains: map<Block, seq<nat>>, b: Block, i: nat)
    requires Consistent(first, creatures, chains) && b in chains && i + 1 < |chains[b]|
    requires chains[b][i] in creatures && chains[b][i + 1] in creatures
    ensures var ids := chains[b];
      Consistent(first, creatures[ids[i] := creatures[ids[i]].(next := creatures[ids[i + 1]].next)],
                 chains[b := ids[..i + 1] + ids[i + 2..]])
  {
    hide ChainOk;
    var ids := chains[b];
    assert ChainOk(first[b], creatures, b, ids);
    var cs := creatures[ids[i] := creatures[ids[i]].(next := creatures[ids[i + 1]].next)];
    var c := chains[b := ids[..i + 1] + ids[i + 2..]];
    OwnBlock(first[b], creatures, b, ids, i);
    forall a | a in c ensures ChainOk(first[a], cs, a, c[a]) {
      assert ChainOk(first[a], creatures, a, chains[a]);
      if a == b {
        ShorterChain(first[b], creatures, b, ids, i);
      } else {
        OtherChain(first[a], creatures, a, chains[a], ids[i], cs[ids[i]]);
      }
    }
  }

  lemma OwnBlock(head: nat, creatures: map<nat, Creature>, b: Block, ids: seq<nat>, i: nat)
    requires ChainOk(head, creatures, b, ids) && i < |ids|
    ensures ids[i] in creatures && BlockOf(creatures[ids[i]].x, creatures[ids[i]].y) == b
  {
  }

  lemma ShorterChain(head: nat, creatures: map<nat, Creature>, b: Block, ids: seq<nat>, i: nat)
    requires ChainOk(head, creatures, b, ids) && i + 1 < |ids| && ids[i] in creatures && ids[i + 1] in creatures
    ensures ChainOk(head, creatures[ids[i] := creatures[ids[i]].(next := creatures[ids[i + 1]].next)], b,
                    ids[..i + 1] + ids[i + 2..])
  {
    hide Linked, BlockOf;
    Unlinked(head, ids, creatures, i);
    var after := creatures[ids[i] := creatures[ids[i]].(next := creatures[ids[i + 1]].next)];
    var rest := ids[..i + 1] + ids[i + 2..];
    assert forall j :: 0 <= j < |rest| ==> rest[j] == ids[if j <= i then j else j + 1];
    forall id | id in rest ensures id in after && BlockOf(after[id].x, after[id].y) == b {
      assert id in ids && ids[i] in ids;
    }
  }

  /** A creature of another block changes, at most in its link. */
  lemma OtherChain(head: nat, creatures: map<nat, Creature>, a: Block, ids: seq<nat>, id: nat, c: Creature)
    requires ChainOk(head, creatures, a, ids) && id in creatures && BlockOf(creatures[id].x, creatures[id].y) != a
    ensures ChainOk(head, creatures[id := c], a, ids)
  {
    hide Linked, BlockOf;
    assert id !in ids;
    LinkedFrame(head, ids, creatures, creatures[id := c]);
  }

  /** Chains that are in order with a creature at one position are in order with it
      at another one exactly if that is in the same block. */
  lemma Elsewhere(first: map<Block, nat>, creatures: map<nat, Creature>, chains: map<Block, seq<nat>>,
                  id: nat, x: int, y: int, newX: int, newY: int)
    requires id in creatures && Placed(chains, id)
    requires Consistent(first, creatures[id := creatures[id].(x := x, y := y)], chains)
    ensures Consistent(first, creatures[id := creatures[id].(x := newX, y := newY)], chains)
            <==> BlockOf(newX, newY) == BlockOf(x, y)
  {
    hide Linked, Distinct, BlockOf, ChainOk, Consistent;
    var here := creatures[id := creatures[id].(x := x, y := y)];
    var there := creatures[id := creatures[id].(x := newX, y := newY)];
    PlacedAtOwn(first, here, chains, id);
    var b :| b in chains && id in chains[b];
    if BlockOf(newX, newY) == BlockOf(x, y) {
      StepInside(first, here, chains, id, newX, newY);
      assert here[id := here[id].(x := newX, y := newY)] == there;
    } else if Consistent(first, there, chains) {
      PlacedAtOwn(first, there, chains, id);
    }
  }

  /** A new front of a chain, at a position in its block. */
  lemma InsertKeeps(first: map<Block, nat>, creatures: map<nat, Creature>, chains: map<Block, seq<nat>>,
                    b: Block, id: nat, x: int, y: int)
    requires Consistent(first, creatures, chains) && b in chains && b in first && id in creatures && id != 0
    requires NotPlaced(chains, id) && BlockOf(x, y) == b
    ensures Consistent(first[b := id], creatures[id := creatures[id].(next := first[b], x := x, y := y)],
                       chains[b := [id] + chains[b]])
  {
    var f, c := first[b := id], chains[b := [id] + chains[b]];
    var cs := creatures[id := creatures[id].(next := first[b], x := x, y := y)];
    forall a | a in c ensures ChainOk(f[a], cs, a, c[a]) {
      assert ChainOk(first[a], creatures, a, chains[a]);
      LinkedFrame(first[a], chains[a], creatures, cs);
      assert ([id] + chains[b])[1..] == chains[b];
    }
  }

  /** A new position in the same block. */
  lemma StepInside(first: map<Block, nat>, creatures: map<nat, Creature>, chains: map<Block, seq<nat>>,
                   id: nat, x: int, y: int)
    requires Consistent(first, creatures, chains) && id in creatures
    requires BlockOf(x, y) == BlockOf(creatures[id].x, creatures[id].y)
    ensures Consistent(first, creatures[id := creatures[id].(x := x, y := y)], chains)
  {
    var cs := creatures[id := creatures[id].(x := x, y := y)];
    forall a | a in chains ensures ChainOk(first[a], cs, a, chains[a]) {
      assert ChainOk(first[a], creatures, a, chains[a]);
      LinkedFrame(first[a], chains[a], creatures, cs);
    }
  }

  lemma InsertPlaces(chains: map<Block, seq<nat>>, b: Block, id: nat)
    requires b in chains
    ensures forall k :: Placed(chains[b := [id] + chains[b]], k) <==> k == id || Placed(chains, k)
  {
    var c := chains[b := [id] + chains[b]];
    forall k ensures Placed(c, k) <==> k == id || Placed(chains, k) {
      if Placed(chains, k) {
        var a :| a in chains && k in chains[a];
        assert a in c && k in c[a];
      }
      assert b in c && id in c[b];
    }
  }

  /** Without the `i`-th of one chain. */
  lemma DeletePlaces(chains: map<Block, seq<nat>>, b: Block, i: nat)
    requires b in chains && i < |chains[b]| && Distinct(chains[b])
    requires forall a :: a in chains && a != b ==> chains[b][i] !in chains[a]
    ensures forall k :: Placed(chains[b := chains[b][..i] + chains[b][i + 1..]], k)
                        <==> k != chains[b][i] && Placed(chains, k)
  {
    var c := chains[b := chains[b][..i] + chains[b][i + 1..]];
    forall k ensures Placed(c, k) <==> k != chains[b][i] && Placed(chains, k) {
      if Placed(chains, k) && k != chains[b][i] {
        var a :| a in chains && k in chains[a];
        assert chains[b] == chains[b][..i] + [chains[b][i]] + chains[b][i + 1..];
        assert a in c && k in c[a];
      }
      if Placed(c, k) {
        var a :| a in c && k in c[a];
        assert k in chains[a];
      }
    }
  }
}
