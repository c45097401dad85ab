/**
  Money in nested containers: counting, paying with change, and the sale of a
  house between two depots.
*/
module Money {
  import opened Common

  datatype Kind = Gold | Platinum | Crystal | Container | Thing

  /** An object; only containers hold others, and only coins count their amount. */
  datatype Obj = Obj(kind: Kind, amount: nat, contents: seq<Obj>)

  predicate IsCoin(k: Kind) {
    k.Gold? || k.Platinum? || k.Crystal?
  }

  function Worth(k: Kind): nat {
    match k
    case Gold => 1
    case Platinum => 100
    case Crystal => 10000
    case _ => 0
  }

  // ---------------------------------------------------------- counting

  /** The coins of one kind in a list of objects and everything inside them. */
  function CountObjects(objs: seq<Obj>, kind: Kind): (n: nat)
    requires IsCoin(kind)
  {
    if objs == [] then 0
    else
      (if objs[0].kind.Container? then CountObjects(objs[0].contents, kind) else 0)
      + (if objs[0].kind == kind then objs[0].amount else 0)
      + CountObjects(objs[1..], kind)
  }

  function CountMoney(objs: seq<Obj>): (n: nat) {
    if objs == [] then 0
    else
      (if objs[0].kind.Container? then CountMoney(objs[0].contents) else 0)
      + objs[0].amount * Worth(objs[0].kind)
      + CountMoney(objs[1..])
  }

  /** The money is the worth of the coins. */
  lemma {:induction false} MoneyIsCoins(objs: seq<Obj>)
    ensures CountMoney(objs) ==
      CountObjects(objs, Gold) + 100 * CountObjects(objs, Platinum) + 10000 * CountObjects(objs, Crystal)
  {
    if objs != [] {
      MoneyIsCoins(objs[1..]);
      if objs[0].kind.Container? {
        MoneyIsCoins(objs[0].contents);
      }
    }
  }

  /** The objects without any coins. */
  function WithoutCoins(objs: seq<Obj>): seq<Obj> {
    if objs == [] then []
    else if IsCoin(objs[0].kind) then WithoutCoins(objs[1..])
    else
      [objs[0].(contents := if objs[0].kind.Container? then WithoutCoins(objs[0].contents) else objs[0].contents)]
      + WithoutCoins(objs[1..])
  }

  lemma {:induction false} CountConcatenated(a: seq<Obj>, b: seq<Obj>, k: Kind)
    requires IsCoin(k)
    ensures CountObjects(a + b, k) == CountObjects(a, k) + CountObjects(b, k)
  {
    if a == [] {
      assert a + b == b;
    } else {
      assert (a + b)[1..] == a[1..] + b;
      CountConcatenated(a[1..], b, k);
    }
  }

  lemma {:induction false} RestConcatenated(a: seq<Obj>, b: seq<Obj>)
    ensures WithoutCoins(a + b) == WithoutCoins(a) + WithoutCoins(b)
  {
    if a == [] {
      assert a + b == b;
    } else {
      assert (a + b)[1..] == a[1..] + b;
      RestConcatenated(a[1..], b);
    }
  }

  lemma Concatenated(a: seq<Obj>, b: seq<Obj>)
    ensures forall k :: IsCoin(k) ==> CountObjects(a + b, k) == CountObjects(a, k) + CountObjects(b, k)
    ensures WithoutCoins(a + b) == WithoutCoins(a) + WithoutCoins(b)
  {
    hide CountObjects, WithoutCoins;
    RestConcatenated(a, b);
    forall k | IsCoin(k) ensures CountObjects(a + b, k) == CountObjects(a, k) + CountObjects(b, k) {
      CountConcatenated(a, b, k);
    }
  }

  // ---------------------------------------------------------- coins

  /** Takes coins out of a list, container by container; also what is still missing. */
  function Removed(objs: seq<Obj>, kind: Kind, amount: int): (r: (seq<Obj>, int))
    decreases objs
  {
    if objs == [] || amount <= 0 then (objs, amount)
    else
      var o := objs[0];
      if o.kind == kind then
        if o.amount > amount then ([o.(amount := o.amount - amount)] + objs[1..], 0)
        else Removed(objs[1..], kind, amount - o.amount)
      else if o.kind.Container? then
        var (inside, left) := Removed(o.contents, kind, amount);
        var (rest, missing) := Removed(objs[1..], kind, left);
        ([o.(contents := inside)] + rest, missing)
      else
        var (rest, missing) := Removed(objs[1..], kind, amount);
        ([o] + rest, missing)
  }

  /** Exactly as many coins go as asked for, or all there are. */
  lemma {:induction false} RemovedCounts(objs: seq<Obj>, kind: Kind, amount: nat)
    requires IsCoin(kind)
    ensures var (rest, missing) := Removed(objs, kind, amount);
      var taken := Min(amount, CountObjects(objs, kind));
      && missing == amount - taken
      && CountObjects(rest, kind) == CountObjects(objs, kind) - taken
    decreases objs
  {
    if objs != [] && amount > 0 {
      var o, tail := objs[0], objs[1..];
      if o.kind == kind {
        if o.amount <= amount {
          RemovedCounts(tail, kind, amount - o.amount);
        } else {
          HeadTail(o.(amount := o.amount - amount), tail);
        }
      } else if o.kind.Container? {
        var (inside, left) := Removed(o.contents, kind, amount);
        RemovedCounts(o.contents, kind, amount);
        RemovedCounts(tail, kind, left);
        HeadTail(o.(contents := inside), Removed(tail, kind, left).0);
      } else {
        RemovedCounts(tail, kind, amount);
        HeadTail(o, Removed(tail, kind, amount).0);
      }
    }
  }

  /** Coins of other kinds and other objects stay. */
  lemma {:induction false} RemovedLeavesOthers(objs: seq<Obj>, kind: Kind, amount: int, k: Kind)
    requires IsCoin(kind) && IsCoin(k) && k != kind
    ensures CountObjects(Removed(objs, kind, amount).0, k) == CountObjects(objs, k)
    ensures WithoutCoins(Removed(objs, kind, amount).0) == WithoutCoins(objs)
    decreases objs
  {
    if objs != [] && amount > 0 {
      var o, tail := objs[0], objs[1..];
      if o.kind == kind {
        if o.amount <= amount {
          RemovedLeavesOthers(tail, kind, amount - o.amount, k);
        } else {
          HeadTail(o.(amount := o.amount - amount), tail);
        }
      } else if o.kind.Container? {
        var (inside, left) := Removed(o.contents, kind, amount);
        RemovedLeavesOthers(o.contents, kind, amount, k);
        RemovedLeavesOthers(tail, kind, left, k);
        HeadTail(o.(contents := inside), Removed(tail, kind, left).0);
      } else {
        RemovedLeavesOthers(tail, kind, amount, k);
        HeadTail(o, Removed(tail, kind, amount).0);
      }
    }
  }

  lemma HeadTail(o: Obj, tail: seq<Obj>)
    ensures ([o] + tail)[0] == o && ([o] + tail)[1..] == tail
  {
  }

  /** What one object keeps, and how many coins are missing after it. */
  function RemovedFromOne(o: Obj, kind: Kind, amount: int): (r: (seq<Obj>, int)) {
    if o.kind == kind then
      if o.amount > amount then ([o.(amount := o.amount - amount)], 0) else ([], amount - o.amount)
    else if o.kind.Container? then
      var (inside, left) := Removed(o.contents, kind, amount);
      ([o.(contents := inside)], left)
    else ([o], amount)
  }

  function Join(front: seq<Obj>, r: (seq<Obj>, int)): (seq<Obj>, int) {
    (front + r.0, r.1)
  }

  lemma RemovedStep(front: seq<Obj>, objs: seq<Obj>, kind: Kind, amount: int)
    requires objs != [] && amount > 0
    ensures var (kept, left) := RemovedFromOne(objs[0], kind, amount);
      Join(front, Removed(objs, kind, amount)) == Join(front + kept, Removed(objs[1..], kind, left))
  {
    var (kept, left) := RemovedFromOne(objs[0], kind, amount);
    var r := Removed(objs[1..], kind, left);
    assert [] + r.0 == r.0;
    assert Removed(objs, kind, amount) == (kept + r.0, r.1);
    assert front + (kept + r.0) == front + kept + r.0;
  }

  /** The loop over a list of objects, with recursion into containers. */
  method DeleteCoins(con: seq<Obj>, kind: Kind, amount: int) returns (left: seq<Obj>, missing: int)
    ensures (left, missing) == Removed(con, kind, amount)
    decreases con
  {
    hide Removed, Join;
    left, missing := [], amount;
    var i := 0;
    assert con[0..] == con;
    JoinNothing(Removed(con, kind, amount));
    while missing > 0 && i < |con|
      invariant 0 <= i <= |con|
      invariant Join(left, Removed(con[i..], kind, missing)) == Removed(con, kind, amount)
      decreases |con| - i
    {
      var obj := con[i];
      assert con[i..][0] == obj && con[i..][1..] == con[i + 1..];
      RemovedStep(left, con[i..], kind, missing);
      if obj.kind == kind {
        if obj.amount > missing {
          left := left + [obj.(amount := obj.amount - missing)];
          missing := 0;
        } else {
          assert left + [] == left;
          missing := missing - obj.amount;
        }
      } else if obj.kind.Container? {
        var inside;
        inside, missing := DeleteCoins(obj.contents, kind, missing);
        left := left + [obj.(contents := inside)];
      } else {
        left := left + [obj];
      }
      i := i + 1;
    }
    RemovedNothing(left, con[i..], kind, missing);
    left := left + con[i..];
  }

  lemma JoinNothing(r: (seq<Obj>, int))
    ensures Join([], r) == r
  {
    assert [] + r.0 == r.0;
  }

  lemma RemovedNothing(front: seq<Obj>, objs: seq<Obj>, kind: Kind, amount: int)
    requires objs == [] || amount <= 0
    ensures Join(front, Removed(objs, kind, amount)) == (front + objs, amount)
  {
  }

  /** Puts a new stack somewhere into a container. */
  function Created(con: seq<Obj>, at: nat, kind: Kind, amount: nat): seq<Obj>
    requires at <= |con|
  {
    con[..at] + [Obj(kind, amount, [])] + con[at..]
  }

  /** A stack adds its coins and nothing else. */
  lemma CreatedCounts(con: seq<Obj>, at: nat, kind: Kind, amount: nat)
    requires at <= |con| && IsCoin(kind)
    ensures var c := Created(con, at, kind, amount);
      && (forall k :: IsCoin(k) ==> CountObjects(c, k) == CountObjects(con, k) + if k == kind then amount else 0)
      && WithoutCoins(c) == WithoutCoins(con)
  {
    hide CountObjects, WithoutCoins;
    var stack := [Obj(kind, amount, [])];
    Concatenated(con[..at], con[at..]);
    assert con[..at] + con[at..] == con;
    OneStack(kind, amount);
    Concatenated(con[..at], stack);
    Concatenated(con[..at] + stack, con[at..]);
  }

  lemma OneStack(kind: Kind, amount: nat)
    requires IsCoin(kind)
    ensures var stack := [Obj(kind, amount, [])];
      && (forall k :: IsCoin(k) ==> CountObjects(stack, k) == if k == kind then amount else 0)
      && WithoutCoins(stack) == []
  {
    var stack := [Obj(kind, amount, [])];
    assert stack[1..] == [];
  }

  // ---------------------------------------------------------- change

  /** Division and remainder that cut towards zero. */
  function Div(a: int, b: int): int
    requires b > 0
  {
    if a >= 0 then a / b else -((-a) / b)
  }

  function Rem(a: int, b: int): int
    requires b > 0
  {
    a - Div(a, b) * b
  }

  datatype Coins = Coins(gold: int, platinum: int, crystal: int)

  function Value(c: Coins): int {
    c.crystal * 10000 + c.platinum * 100 + c.gold
  }

  /** Which coins to take, or to give back where the number is negative, in order
      to pay an amount out of what is there. */
  method CalculateChange(amount: int, have: Coins) returns (pay: Coins)
    requires 0 <= amount && have.gold >= 0 && have.platinum >= 0 && have.crystal >= 0
    ensures Value(have) < amount ==> pay == have
    ensures Value(have) >= amount ==>
      && Value(pay) == amount
      && -99 <= pay.gold <= have.gold && -99 <= pay.platinum <= have.platinum && 0 <= pay.crystal <= have.crystal
  {
    var go, pl, cr := have.gold, have.platinum, have.crystal;
    if cr * 10000 + pl * 100 + go < amount {
      return have;
    }
    var amountCr := Div(amount, 10000);
    var amountRem := Rem(amount, 10000);
    if pl * 100 + go < amountRem {
      cr := amountCr + 1;
      pl := Div(amountRem - 10000, 100);
      go := Rem(amountRem - 10000, 100);
    } else {
      if cr < amountCr {
        amountRem := amount - cr * 10000;
      } else {
        cr := amountCr;
      }
      var amountPl := Div(amountRem, 100);
      var amountGo := Rem(amountRem, 100);
      if go < amountGo {
        pl := amountPl + 1;
        go := amountGo - 100;
      } else if pl < amountPl {
        go := amountRem - pl * 100;
      } else {
        pl := amountPl;
        go := amountGo;
      }
    }
    pay := Coins(go, pl, cr);
  }

  // ---------------------------------------------------------- paying

  /** Where new stacks go is not fixed: any place of the container will do. */
  method CreateCoins(con: seq<Obj>, place: nat, kind: Kind, amount: int) returns (r: seq<Obj>)
    requires IsCoin(kind) && 1 <= amount <= 100
    ensures forall k :: IsCoin(k) ==> CountObjects(r, k) == CountObjects(con, k) + if k == kind then amount else 0
    ensures WithoutCoins(r) == WithoutCoins(con)
  {
    hide CountObjects, WithoutCoins;
    var at := if place <= |con| then place else |con|;
    r := Created(con, at, kind, amount);
    CreatedCounts(con, at, kind, amount);
  }

  /** Takes coins of one kind, or gives change in it. */
  method Settle(con: seq<Obj>, place: nat, kind: Kind, amount: int) returns (r: seq<Obj>)
    requires IsCoin(kind) && -99 <= amount <= CountObjects(con, kind)
    ensures forall k :: IsCoin(k) ==> CountObjects(r, k) == CountObjects(con, k) - if k == kind then amount else 0
    ensures WithoutCoins(r) == WithoutCoins(con)
  {
    hide CountObjects, WithoutCoins, Removed;
    r := con;
    if amount > 0 {
      var missing;
      r, missing := DeleteCoins(con, kind, amount);
      RemovedCounts(con, kind, amount);
      forall k | IsCoin(k) && k != kind ensures CountObjects(r, k) == CountObjects(con, k) {
        RemovedLeavesOthers(con, kind, amount, k);
      }
      RemovedLeavesOthers(con, kind, amount, if kind.Gold? then Platinum else Gold);
      assert missing == 0;
    } else if amount < 0 {
      r := CreateCoins(con, place, kind, -amount);
    }
  }

  /** Pays an amount out of a container: with enough money exactly the amount goes,
      otherwise all of it, and nothing but coins is touched. */
  method DeleteMoney(con: seq<Obj>, place: nat, amount: int) returns (r: seq<Obj>)
    requires 0 <= amount
    ensures CountMoney(r) == CountMoney(con) - Min(amount, CountMoney(con))
    ensures WithoutCoins(r) == WithoutCoins(con)
  {
    hide CountObjects, CountMoney, WithoutCoins;
    MoneyIsCoins(con);
    var have := Coins(CountObjects(con, Gold), CountObjects(con, Platinum), CountObjects(con, Crystal));
    var pay := CalculateChange(amount, have);
    r := Settle(con, place, Gold, pay.gold);
    r := Settle(r, place, Platinum, pay.platinum);
    assert pay.crystal >= 0;
    r := Settle(r, place, Crystal, pay.crystal);
    MoneyIsCoins(r);
  }

  /** Adds an amount to a container, in stacks of at most a hundred coins. */
  method CreateMoney(con: seq<Obj>, place: nat, amount: int) returns (r: seq<Obj>)
    requires 0 <= amount
    ensures CountMoney(r) == CountMoney(con) + amount
    ensures WithoutCoins(r) == WithoutCoins(con)
  {
    hide CountObjects, CountMoney, WithoutCoins;
    var crystal := Div(amount, 10000);
    var platinum := Div(Rem(amount, 10000), 100);
    var gold := Rem(Rem(amount, 10000), 100);
    assert 0 <= gold < 100 && 0 <= platinum < 100 && 0 <= crystal;
    assert amount == 10000 * crystal + 100 * platinum + gold;
    r := con;
    var left := crystal;
    while left > 0
      invariant 0 <= left <= crystal
      invariant CountObjects(r, Crystal) == CountObjects(con, Crystal) + crystal - left
      invariant CountObjects(r, Gold) == CountObjects(con, Gold) && CountObjects(r, Platinum) == CountObjects(con, Platinum)
      invariant WithoutCoins(r) == WithoutCoins(con)
    {
      var stack := Min(left, 100);
      r := CreateCoins(r, place, Crystal, stack);
      left := left - stack;
    }
    if platinum > 0 {
      r := CreateCoins(r, place, Platinum, platinum);
    }
    if gold > 0 {
      r := CreateCoins(r, place, Gold, gold);
    }
    MoneyIsCoins(con);
    MoneyIsCoins(r);
  }

  // ---------------------------------------------------------- selling a house

  datatype Outcome = BuyerNotLoaded | NotEnoughMoney | SellerNotLoaded | Sold

  type Depots = map<nat, seq<Obj>>

  function DepotOf(d: Depots, owner: nat): seq<Obj> {
    if owner in d then d[owner] else []
  }

  function Balance(d: Depots, owner: nat): nat {
    CountMoney(DepotOf(d, owner))
  }

  /** The sale of a house for a price.  The slots of buyer and seller may be
      unavailable; the money is taken before the seller's slot is asked for. */
  method SellHouse(depots: Depots, buyer: nat, seller: nat, price: int, buyerLoads: bool, sellerLoads: bool, letter: Obj, place: nat)
    returns (r: Depots, outcome: Outcome)
    requires price > 0 && letter.kind.Thing?
    ensures outcome ==
      if !buyerLoads then BuyerNotLoaded
      else if Balance(depots, buyer) < price then NotEnoughMoney
      else if !sellerLoads then SellerNotLoaded
      else Sold
    ensures forall p :: p != buyer && p != seller ==> DepotOf(r, p) == DepotOf(depots, p)
    // A sale touches nothing but coins, unless it is called off with a letter to the buyer.
    ensures outcome.BuyerNotLoaded? ==> r == depots
    ensures outcome.NotEnoughMoney? ==> r == depots[buyer := [letter] + DepotOf(depots, buyer)]
    ensures outcome.Sold? || outcome.SellerNotLoaded? ==>
      forall p :: WithoutCoins(DepotOf(r, p)) == WithoutCoins(DepotOf(depots, p))
    // A completed sale moves exactly the price, even from a player to himself.
    ensures outcome.Sold? ==>
      if buyer == seller then Balance(r, buyer) == Balance(depots, buyer)
      else Balance(r, buyer) == Balance(depots, buyer) - price && Balance(r, seller) == Balance(depots, seller) + price
    // A sale that is called off costs nothing.
    ensures outcome.BuyerNotLoaded? || outcome.NotEnoughMoney? ==>
      Balance(r, buyer) == Balance(depots, buyer) && DepotOf(r, seller) == if buyer == seller then DepotOf(r, buyer) else DepotOf(depots, seller)
    // When only the seller's slot is missing the price is gone.
    ensures outcome.SellerNotLoaded? ==>
      Balance(r, buyer) == Balance(depots, buyer) - price && (buyer != seller ==> DepotOf(r, seller) == DepotOf(depots, seller))
  {
    hide CountMoney, CountObjects, WithoutCoins;
    r := depots;
    if !buyerLoads {
      return r, BuyerNotLoaded;
    }
    var depot := DepotOf(depots, buyer);
    if CountMoney(depot) < price {
      LetterCosts(depot, letter);
      r := r[buyer := [letter] + depot];
      return r, NotEnoughMoney;
    }
    depot := DeleteMoney(depot, place, price);
    r := r[buyer := depot];
    if !sellerLoads {
      return r, SellerNotLoaded;
    }
    depot := CreateMoney(DepotOf(r, seller), place, price);
    r := r[seller := depot];
    outcome := Sold;
  }

  /** A sale for the buyer's only gold piece, when the seller's slot cannot be had: the piece is gone. */
  method PriceIsLost() returns (r: Depots, outcome: Outcome)
    ensures outcome == SellerNotLoaded && Balance(r, 1) == 0 && Balance(r, 2) == 0
  {
    var depots: Depots := map[1 := [Obj(Gold, 1, [])]];
    assert Balance(depots, 1) == 1 && Balance(depots, 2) == 0;
    r, outcome := SellHouse(depots, 1, 2, 1, true, false, Obj(Thing, 1, []), 0);
    assert DepotOf(r, 2) == [];
  }

  lemma LetterCosts(depot: seq<Obj>, letter: Obj)
    requires letter.kind.Thing?
    ensures CountMoney([letter] + depot) == CountMoney(depot)
  {
    assert ([letter] + depot)[1..] == depot;
  }
}
