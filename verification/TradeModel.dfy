/**
  Trading between two players.  Each player may have one offer open: an object for a
  partner.  When two open offers point at each other both players may accept, and the
  second acceptance swaps the objects.  A log records what the players saw and did.
*/
module TradeModel {

  /** An item of 0 means that no offer is open; the other fields are then stale. */
  datatype Trader = Trader(item: nat, partner: nat, accepted: bool)

  datatype Event =
    | Offered(player: nat)
    | Closed(player: nat)
    | Accepted(player: nat, partner: nat, own: nat, other: nat)
    | Swapped(player: nat, partner: nat, own: nat, other: nat)

  /** The players in the game, where each object is, and what happened so far. */
  datatype Market = Market(players: map<nat, Trader>, places: map<nat, nat>, log: seq<Event>)

  datatype Result =
    | Done | NotAccessible | CrossReference | PlayerNotOnline | AlreadyTrading
    | TooManyObjects | OutOfRange | CannotThrow | PartnerTrading

  /** What the map says about an offer: `nested` when one of two offered objects is inside of the other. */
  datatype Scene = Scene(accessible: bool, count: nat, distance: nat, throwPossible: bool, nested: bool)

  /** What the checks of a swap say, side by side, and where each object would go. */
  datatype Checks = Checks(ownFits: bool, otherFits: bool, ownTarget: nat, otherTarget: nat)

  datatype Step =
    | Trade(player: nat, item: nat, partner: nat, scene: Scene)
    | Accept(player: nat, checks: Checks)
    | Reject(player: nat)
    | Logout(player: nat)
    | Login(player: nat)

  predicate Open(m: Market, p: nat) {
    p in m.players && m.players[p].item != 0
  }

  /** The open offer of `p` is for `q`. */
  predicate Offers(m: Market, p: nat, q: nat) {
    Open(m, p) && m.players[p].partner == q
  }

  function Verdict(m: Market, p: nat, x: nat, q: nat, scene: Scene): Result
    requires p in m.players
  {
    if x == 0 || !scene.accessible then NotAccessible
    else if p == q then CrossReference
    else if q !in m.players then PlayerNotOnline
    else if Open(m, p) then AlreadyTrading
    else if scene.count > 100 then TooManyObjects
    else if scene.distance > 2 then OutOfRange
    else if !scene.throwPossible then CannotThrow
    else if Open(m, q) && m.players[q].partner != p then PartnerTrading
    else if Open(m, q) && (m.players[q].item == x || scene.nested) then NotAccessible
    else Done
  }

  function Close(m: Market, p: nat): Market
    requires p in m.players
  {
    m.(players := m.players[p := m.players[p].(item := 0)], log := m.log + [Closed(p)])
  }

  function Rejected(m: Market, p: nat): Market {
    if !Open(m, p) then m
    else
      var q := m.players[p].partner;
      var r := Close(m, p);
      if Offers(r, q, p) then Close(r, q) else r
  }

  function Agreed(m: Market, p: nat): Market
    requires Open(m, p) && m.players[p].partner in m.players
  {
    var a := m.players[p];
    m.(players := m.players[p := a.(accepted := true)],
       log := m.log + [Accepted(p, a.partner, a.item, m.players[a.partner].item)])
  }

  /** Both objects change hands and both offers are closed. */
  function Exchanged(m: Market, p: nat, checks: Checks): Market
    requires Open(m, p) && Open(m, m.players[p].partner)
  {
    var a := m.players[p];
    var b := m.players[a.partner];
    var r := Close(Close(m.(log := m.log + [Swapped(p, a.partner, a.item, b.item)]), p), a.partner);
    r.(places := m.places[a.item := checks.ownTarget][b.item := checks.otherTarget])
  }

  function AcceptedBy(m: Market, p: nat, checks: Checks): Market {
    if !Open(m, p) || !Offers(m, m.players[p].partner, p) then m
    else
      var r := Agreed(m, p);
      var q := r.players[p].partner;
      if !r.players[q].accepted then r
      else if checks.ownFits && checks.otherFits then Exchanged(r, p, checks)
      else Close(Close(r, p), q)
  }

  function Apply(m: Market, step: Step): Market {
    match step
    case Trade(p, x, q, scene) =>
      if p in m.players && Verdict(m, p, x, q, scene) == Done then
        m.(players := m.players[p := Trader(x, q, false)], log := m.log + [Offered(p)])
      else m
    case Accept(p, checks) => AcceptedBy(m, p, checks)
    case Reject(p) => Rejected(m, p)
    case Logout(p) => var r := Rejected(m, p); r.(players := r.players - {p})
    case Login(p) => if p in m.players then m else m.(players := m.players[p := Trader(0, 0, false)])
  }

  // ---------------------------------------------------------- acceptance

  /** Since the event `i` of a log, before its `k`-th, neither of two players opened or closed an offer. */
  ghost predicate Untouched(log: seq<Event>, i: nat, k: nat, p: nat, q: nat) {
    forall j :: i <= j < k && j < |log| ==> log[j] !in {Offered(p), Offered(q), Closed(p), Closed(q)}
  }

  /** Before its `k`-th event, `p` accepted to give `x` to `q` for `y`, and both offers stand since then. */
  ghost predicate Accepts(log: seq<Event>, k: nat, p: nat, q: nat, x: nat, y: nat) {
    exists i :: 0 <= i < k && i < |log| && log[i] == Accepted(p, q, x, y) && Untouched(log, i, k, p, q)
  }

  /** Every swap is of the two objects that were on offer when each of the two players accepted. */
  ghost predicate Fair(log: seq<Event>) {
    forall k :: 0 <= k < |log| && log[k].Swapped? ==>
      var e := log[k];
      Accepts(log, k, e.player, e.partner, e.own, e.other) && Accepts(log, k, e.partner, e.player, e.other, e.own)
  }

  /** An accepted offer is answered by an open one, and its acceptance is in the log. */
  ghost predicate Answered(m: Market, p: nat)
    requires p in m.players
  {
    var a := m.players[p];
    a.item != 0 && a.accepted ==>
      Offers(m, a.partner, p) && Accepts(m.log, |m.log|, p, a.partner, a.item, m.players[a.partner].item)
  }

  /** Two offers for each other are of different objects. */
  ghost predicate Apart(m: Market, p: nat)
    requires p in m.players
  {
    var a := m.players[p];
    a.item != 0 ==> a.partner != p && (Offers(m, a.partner, p) ==> m.players[a.partner].item != a.item)
  }

  ghost predicate Inv(m: Market) {
    Fair(m.log) && forall p :: p in m.players ==> Answered(m, p) && Apart(m, p)
  }

  // ---------------------------------------------------------- longer logs

  /** Events that do not open or close an offer of `p` or `q` leave an acceptance standing. */
  lemma AcceptsOn(log: seq<Event>, more: seq<Event>, p: nat, q: nat, x: nat, y: nat)
    requires Accepts(log, |log|, p, q, x, y)
    requires forall e :: e in more ==> e !in {Offered(p), Offered(q), Closed(p), Closed(q)}
    ensures Accepts(log + more, |log + more|, p, q, x, y)
  {
    var i :| 0 <= i < |log| && log[i] == Accepted(p, q, x, y) && Untouched(log, i, |log|, p, q);
    assert (log + more)[i] == Accepted(p, q, x, y);
    forall j | i <= j < |log + more| ensures (log + more)[j] !in {Offered(p), Offered(q), Closed(p), Closed(q)} {
      assert j >= |log| ==> (log + more)[j] in more;
    }
  }

  /** What was accepted before some moment does not change with later events. */
  lemma AcceptsBefore(log: seq<Event>, more: seq<Event>, k: nat, p: nat, q: nat, x: nat, y: nat)
    requires k <= |log| && Accepts(log, k, p, q, x, y)
    ensures Accepts(log + more, k, p, q, x, y)
  {
    var i :| 0 <= i < k && log[i] == Accepted(p, q, x, y) && Untouched(log, i, k, p, q);
    assert (log + more)[i] == Accepted(p, q, x, y);
    assert Untouched(log + more, i, k, p, q);
  }

  lemma FairOn(log: seq<Event>, e: Event)
    requires Fair(log)
    requires e.Swapped? ==>
      Accepts(log, |log|, e.player, e.partner, e.own, e.other) && Accepts(log, |log|, e.partner, e.player, e.other, e.own)
    ensures Fair(log + [e])
  {
    var longer := log + [e];
    forall k | 0 <= k < |longer| && longer[k].Swapped?
      ensures var s := longer[k];
        Accepts(longer, k, s.player, s.partner, s.own, s.other) && Accepts(longer, k, s.partner, s.player, s.other, s.own)
    {
      var s := longer[k];
      AcceptsBefore(log, [e], k, s.player, s.partner, s.own, s.other);
      AcceptsBefore(log, [e], k, s.partner, s.player, s.other, s.own);
    }
  }

  // ---------------------------------------------------------- steps

  /** Some players' offers change; no accepted offer of anybody else is for one of them. */
  ghost predicate Changes(m: Market, r: Market, some: set<nat>) {
    && some <= m.players.Keys && r.players.Keys == m.players.Keys
    && (forall a :: a in m.players && a !in some ==>
          r.players[a] == m.players[a] && (Open(m, a) && m.players[a].accepted ==> m.players[a].partner !in some))
    && (forall a :: a in some ==> (r.players[a].accepted ==> r.players[a].item == 0) && Apart(r, a))
  }

  lemma ChangesKeep(m: Market, r: Market, some: set<nat>, more: seq<Event>)
    requires Inv(m) && Changes(m, r, some) && r.log == m.log + more && Fair(r.log)
    requires forall e :: e in more ==> e.player in some
    requires forall a, b :: a in some && b in m.players && b !in some && Offers(r, a, b) && Offers(m, b, a) ==>
      m.players[b].item != r.players[a].item
    ensures Inv(r)
  {
    forall a | a in r.players ensures Answered(r, a) && Apart(r, a) {
      assert a in m.players && Answered(m, a) && Apart(m, a);
      var t := m.players[a];
      if a !in some && t.item != 0 && t.accepted {
        assert t.partner !in some;
        AcceptsOn(m.log, more, a, t.partner, t.item, m.players[t.partner].item);
      }
    }
  }

  lemma TradeKeeps(m: Market, p: nat, x: nat, q: nat, scene: Scene)
    requires Inv(m)
    ensures Inv(Apply(m, Trade(p, x, q, scene)))
  {
    var r := Apply(m, Trade(p, x, q, scene));
    if r != m {
      FairOn(m.log, Offered(p));
      assert !Open(m, p);
      forall a | a in m.players && Open(m, a) && m.players[a].accepted ensures m.players[a].partner != p {
        assert Answered(m, a);
      }
      ChangesKeep(m, r, {p}, [Offered(p)]);
    }
  }

  /** An accepted offer has one for it, so closing that one closes both. */
  lemma OnlyPartner(m: Market, p: nat)
    requires Inv(m) && Open(m, p)
    ensures forall a :: a in m.players && Open(m, a) && m.players[a].accepted && m.players[a].partner == p ==>
      a == m.players[p].partner
  {
    forall a | a in m.players && Open(m, a) && m.players[a].accepted && m.players[a].partner == p
      ensures a == m.players[p].partner
    {
      assert Answered(m, a);
    }
  }

  lemma RejectKeeps(m: Market, p: nat)
    requires Inv(m)
    ensures Inv(Rejected(m, p)) && !Open(Rejected(m, p), p)
    ensures forall a :: Open(Rejected(m, p), a) && Rejected(m, p).players[a].accepted ==> Rejected(m, p).players[a].partner != p
  {
    if Open(m, p) {
      var q := m.players[p].partner;
      assert Answered(m, p) && Apart(m, p);
      OnlyPartner(m, p);
      FairOn(m.log, Closed(p));
      if Offers(m, q, p) {
        OnlyPartner(m, q);
        FairOn(m.log + [Closed(p)], Closed(q));
        assert Rejected(m, p).log == m.log + [Closed(p), Closed(q)];
        ChangesKeep(m, Rejected(m, p), {p, q}, [Closed(p), Closed(q)]);
      } else {
        ChangesKeep(m, Rejected(m, p), {p}, [Closed(p)]);
      }
    }
    forall a | Open(Rejected(m, p), a) && Rejected(m, p).players[a].accepted ensures Rejected(m, p).players[a].partner != p {
      assert Answered(Rejected(m, p), a);
    }
  }

  /** The acceptance is in the log from now on. */
  lemma AgreedKeeps(m: Market, p: nat)
    requires Inv(m) && Open(m, p) && Offers(m, m.players[p].partner, p)
    ensures Inv(Agreed(m, p))
  {
    var r := Agreed(m, p);
    var e := r.log[|m.log|];
    FairOn(m.log, e);
    forall a | a in r.players ensures Answered(r, a) && Apart(r, a) {
      assert Answered(m, a) && Apart(m, a);
      var t := r.players[a];
      if a == p {
        assert Untouched(r.log, |m.log|, |r.log|, p, t.partner);
      } else if t.item != 0 && t.accepted {
        AcceptsOn(m.log, [e], a, t.partner, t.item, m.players[t.partner].item);
      }
    }
  }

  lemma CloseBothKeeps(m: Market, r: Market, p: nat, more: seq<Event>)
    requires Inv(m) && Open(m, p) && Offers(m, m.players[p].partner, p) && Fair(m.log + more)
    requires var q := m.players[p].partner;
      && r.players == m.players[p := m.players[p].(item := 0)][q := m.players[q].(item := 0)]
      && r.log == m.log + more + [Closed(p)] + [Closed(q)]
    requires forall e :: e in more ==> e.player == p
    ensures Inv(r)
  {
    var q := m.players[p].partner;
    assert Apart(m, p);
    OnlyPartner(m, p);
    OnlyPartner(m, q);
    FairOn(m.log + more, Closed(p));
    FairOn(m.log + more + [Closed(p)], Closed(q));
    assert r.log == m.log + (more + [Closed(p)] + [Closed(q)]);
    ChangesKeep(m, r, {p, q}, more + [Closed(p)] + [Closed(q)]);
  }

  lemma AcceptKeeps(m: Market, p: nat, checks: Checks)
    requires Inv(m)
    ensures Inv(AcceptedBy(m, p, checks))
  {
    if Open(m, p) && Offers(m, m.players[p].partner, p) {
      AgreedKeeps(m, p);
      var r := Agreed(m, p);
      var q := r.players[p].partner;
      assert Apart(m, p) && Answered(r, p) && Answered(r, q);
      if r.players[q].accepted {
        if checks.ownFits && checks.otherFits {
          var e := Swapped(p, q, r.players[p].item, r.players[q].item);
          FairOn(r.log, e);
          CloseBothKeeps(r, Exchanged(r, p, checks), p, [e]);
        } else {
          assert r.log + [] == r.log;
          CloseBothKeeps(r, Close(Close(r, p), q), p, []);
        }
      }
    }
  }

  lemma StepKeeps(m: Market, step: Step)
    requires Inv(m)
    ensures Inv(Apply(m, step))
  {
    match step
    case Trade(p, x, q, scene) => TradeKeeps(m, p, x, q, scene);
    case Accept(p, checks) => AcceptKeeps(m, p, checks);
    case Reject(p) => RejectKeeps(m, p);
    case Logout(p) =>
      RejectKeeps(m, p);
      var r, l := Rejected(m, p), Apply(m, step);
      forall a | a in l.players ensures Answered(l, a) && Apart(l, a) {
        assert Answered(r, a) && Apart(r, a);
      }
    case Login(p) =>
      var l := Apply(m, step);
      forall a | a in l.players ensures Answered(l, a) && Apart(l, a) {
        assert a in m.players ==> Answered(m, a) && Apart(m, a);
      }
  }

  // ---------------------------------------------------------- what the players can rely on

  /** An open offer is never replaced: it stays as it is, or it is closed first. */
  lemma OfferStays(m: Market, step: Step, p: nat)
    requires Inv(m) && Open(m, p) && Open(Apply(m, step), p)
    ensures var before, after := m.players[p], Apply(m, step).players[p];
      before.item == after.item && before.partner == after.partner
    ensures m.players[p].accepted ==> Apply(m, step).players[p].accepted
  {
    assert Apart(m, p);
  }

  /** An offer is closed only by one of its two players. */
  lemma WhoCloses(m: Market, step: Step, p: nat)
    requires Inv(m) && Open(m, p) && !Open(Apply(m, step), p)
    ensures step.player in {p, m.players[p].partner}
  {
  }

  /**
    When both have accepted, either the two objects go to each other's places, or a
    check failed and nothing moves; no other object is touched and no other offer.
  */
  lemma SwapMovesBoth(m: Market, p: nat, checks: Checks)
    requires Inv(m) && Open(m, p) && Offers(m, m.players[p].partner, p) && m.players[m.players[p].partner].accepted
    ensures var q := m.players[p].partner;
      var x, y, r := m.players[p].item, m.players[q].item, AcceptedBy(m, p, checks);
      && x != y && !Open(r, p) && !Open(r, q)
      && (forall a :: a in m.players && a != p && a != q ==> a in r.players && r.players[a] == m.players[a])
      && (if checks.ownFits && checks.otherFits then
            r.places == m.places + map[x := checks.ownTarget, y := checks.otherTarget]
          else r.places == m.places)
  {
    assert Apart(m, p);
  }

  ghost function Run(m: Market, steps: seq<Step>): Market
    decreases |steps|
  {
    if steps == [] then m else Run(Apply(m, steps[0]), steps[1..])
  }

  lemma {:induction false} RunKeeps(m: Market, steps: seq<Step>)
    requires Inv(m)
    ensures Inv(Run(m, steps))
    decreases |steps|
  {
    if steps != [] {
      StepKeeps(m, steps[0]);
      RunKeeps(Apply(m, steps[0]), steps[1..]);
    }
  }

  /**
    In every run, also when players log out and in again: an accepted open offer is
    answered by an open one, two such offers are of different objects, and each swap
    is of the objects on offer when each of the two players accepted.
  */
  lemma TradingIsSafe(places: map<nat, nat>, steps: seq<Step>)
    ensures var m := Run(Market(map[], places, []), steps);
      && Fair(m.log)
      && (forall p :: Open(m, p) && m.players[p].accepted ==> Offers(m, m.players[p].partner, p))
      && (forall p, q :: Offers(m, p, q) && Offers(m, q, p) ==> m.players[p].item != m.players[q].item)
  {
    RunKeeps(Market(map[], places, []), steps);
    var m := Run(Market(map[], places, []), steps);
    forall p | Open(m, p) ensures Answered(m, p) && Apart(m, p) {
    }
  }
}
