/**
  The trade operations on the fields of the players.
*/
module Trading {
  import opened TradeModel

  class Traders {
    var players: map<nat, Trader>
    var places: map<nat, nat>
    ghost var log: seq<Event>

    ghost function View(): Market
      reads this
    {
      Market(players, places, log)
    }

    ghost predicate Valid()
      reads this
    {
      Inv(View())
    }

    constructor (places: map<nat, nat>)
      ensures Valid() && View() == Market(map[], places, [])
    {
      players := map[];
      this.places := places;
      log := [];
    }

    /** What has to hold for an offer, in the order in which it is checked, and how it is refused. */
    ghost function Conditions(p: nat, x: nat, q: nat, scene: Scene): seq<(bool, Result)>
      requires p in players
      reads this
    {
      [(x != 0 && scene.accessible, NotAccessible),
       (p != q, CrossReference),
       (q in players, PlayerNotOnline),
       (players[p].item == 0, AlreadyTrading),
       (scene.count <= 100, TooManyObjects),
       (scene.distance <= 2, OutOfRange),
       (scene.throwPossible, CannotThrow),
       (q in players && players[q].item != 0 ==> players[q].partner == p, PartnerTrading),
       (q in players && players[q].item != 0 ==> players[q].item != x && !scene.nested, NotAccessible)]
    }

    /** Opens an offer, unless something forbids it. */
    method Trade(p: nat, x: nat, q: nat, scene: Scene) returns (r: Result)
      requires Valid() && p in players
      modifies this
      ensures Valid() && View() == Apply(old(View()), Step.Trade(p, x, q, scene))
      ensures r == old(Verdict(View(), p, x, q, scene))
      ensures r == Done ==> Offers(View(), p, q) && players[p].item == x && !players[p].accepted
      ensures r != Done ==> View() == old(View())
      ensures r == Done ==> players == old(players)[p := Trader(x, q, false)] && places == old(places)
      ensures var conditions := old(Conditions(p, x, q, scene));
        && (r == Done <==> forall i :: 0 <= i < |conditions| ==> conditions[i].0)
        && (forall i :: 0 <= i < |conditions| && !conditions[i].0 && (forall j :: 0 <= j < i ==> conditions[j].0) ==>
              r == conditions[i].1)
    {
      StepKeeps(View(), Step.Trade(p, x, q, scene));
      ghost var conditions := Conditions(p, x, q, scene);
      if x == 0 || !scene.accessible {
        assert !conditions[0].0;
        return NotAccessible;
      }
      if p == q {
        assert !conditions[1].0;
        return CrossReference;
      }
      if q !in players {
        assert !conditions[2].0;
        return PlayerNotOnline;
      }
      if players[p].item != 0 {
        assert !conditions[3].0;
        return AlreadyTrading;
      }
      if scene.count > 100 {
        assert !conditions[4].0;
        return TooManyObjects;
      }
      if scene.distance > 2 {
        assert !conditions[5].0;
        return OutOfRange;
      }
      if !scene.throwPossible {
        assert !conditions[6].0;
        return CannotThrow;
      }
      if players[q].item != 0 && players[q].partner != p {
        assert !conditions[7].0;
        return PartnerTrading;
      }
      if players[q].item != 0 && (players[q].item == x || scene.nested) {
        assert !conditions[8].0;
        return NotAccessible;
      }
      players := players[p := Trader(x, q, false)];
      log := log + [Offered(p)];
      return Done;
    }

    /** Accepts the offer of the partner; the second acceptance swaps the objects. */
    method AcceptTrade(p: nat, checks: Checks) returns (swapped: bool)
      requires Valid() && p in players
      modifies this
      ensures Valid() && View() == Apply(old(View()), Accept(p, checks))
      ensures swapped <==> old(Open(View(), p) && Offers(View(), players[p].partner, p) && players[players[p].partner].accepted)
                           && checks.ownFits && checks.otherFits
      ensures !swapped ==> places == old(places)
      ensures var a := old(players)[p]; var q := a.partner;
        if a.item == 0 || q !in old(players) || old(players)[q].item == 0 || old(players)[q].partner != p then
          players == old(players)
        else
          var b := old(players)[q];
          && (!b.accepted ==> players == old(players)[p := a.(accepted := true)])
          && (b.accepted ==> players == old(players)[p := Trader(0, q, true)][q := b.(item := 0)])
          && (swapped ==> places == old(places)[a.item := checks.ownTarget][b.item := checks.otherTarget])
    {
      hide Fair, Answered, Accepts, Untouched;
      StepKeeps(View(), Accept(p, checks));
      swapped := false;
      if players[p].item == 0 {
        return;
      }
      var q := players[p].partner;
      if q !in players || players[q].item == 0 || players[q].partner != p {
        return;
      }
      assert p != q by { assert Apart(View(), p); }
      var x, y := players[p].item, players[q].item;
      players := players[p := players[p].(accepted := true)];
      log := log + [Accepted(p, q, x, y)];
      if !players[q].accepted {
        return;
      }
      swapped := checks.ownFits && checks.otherFits;
      if swapped {
        log := log + [Swapped(p, q, x, y)];
      }
      players := players[p := players[p].(item := 0)];
      players := players[q := players[q].(item := 0)];
      log := log + [Closed(p)] + [Closed(q)];
      if swapped {
        MoveBoth(p, x, checks.ownTarget, q, y, checks.otherTarget);
      }
    }

    /** Two objects go to new places; both are put down first, each at the feet of its new owner. */
    method MoveBoth(p: nat, x: nat, xTarget: nat, q: nat, y: nat, yTarget: nat)
      modifies this`places
      ensures places == old(places)[x := xTarget][y := yTarget]
    {
      places := places[x := q];
      places := places[y := p];
      places := places[x := xTarget];
      places := places[y := yTarget];
    }

    /** Closes the offer of a player and the one that answers it. */
    method RejectTrade(p: nat)
      requires Valid() && p in players
      modifies this
      ensures Valid() && View() == Apply(old(View()), Reject(p)) && p in players && !Open(View(), p) && places == old(places)
      ensures var a := old(players)[p]; var q := a.partner;
        if a.item == 0 then players == old(players)
        else if q in old(players) && old(players)[q].item != 0 && old(players)[q].partner == p then
          players == old(players)[p := a.(item := 0)][q := old(players)[q].(item := 0)]
        else players == old(players)[p := a.(item := 0)]
    {
      StepKeeps(View(), Reject(p));
      RejectKeeps(View(), p);
      if players[p].item != 0 {
        players := players[p := players[p].(item := 0)];
        log := log + [Closed(p)];
        var q := players[p].partner;
        if q in players && players[q].item != 0 && players[q].partner == p {
          players := players[q := players[q].(item := 0)];
          log := log + [Closed(q)];
        }
      }
    }

    /** A player leaves the game. */
    method NotifyDelete(p: nat)
      requires Valid() && p in players
      modifies this
      ensures Valid() && View() == Apply(old(View()), Logout(p)) && p !in players && places == old(places)
      ensures players.Keys == old(players).Keys - {p}
      ensures var a := old(players)[p];
        forall b :: b in players ==>
          var closed := a.item != 0 && b == a.partner && old(players)[b].item != 0 && old(players)[b].partner == p;
          players[b] == if closed then old(players)[b].(item := 0) else old(players)[b]
      ensures forall a :: a in players && Offers(View(), a, p) ==> !players[a].accepted
    {
      ghost var m := View();
      StepKeeps(m, Logout(p));
      RejectKeeps(m, p);
      RejectTrade(p);
      players := players - {p};
    }

    /** A player enters the game without an offer. */
    method Enter(p: nat)
      requires Valid() && p !in players
      modifies this
      ensures Valid() && View() == Apply(old(View()), Login(p))
      ensures players == old(players)[p := Trader(0, 0, false)] && places == old(places)
    {
      StepKeeps(View(), Login(p));
      players := players[p := Trader(0, 0, false)];
    }
  }
}
