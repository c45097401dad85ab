/**
  Experience and levels: each level starts at a fixed amount of experience, and going
  up or down moves the maxima of the skills that grow with the level.
*/
module Levels {

  const MAX_LEVEL: nat := 500

  // ---------------------------------------------------------- the experience curve

  function Polynomial(level: int): int {
    ((level - 6) * level + 17) * level - 12
  }

  /** What it takes to get from one level to the next, by steps that grow by one. */
  function Gap(level: nat): int {
    if level <= 1 then 1 else Gap(level - 1) + level - 2
  }

  function Curve(level: nat): int {
    if level <= 1 then 0 else Curve(level - 1) + Gap(level - 1)
  }

  lemma {:induction false} GapIsSquare(level: nat)
    requires level >= 1
    ensures 2 * Gap(level) == (level - 3) * level + 4
  {
    if level > 1 {
      GapIsSquare(level - 1);
    }
  }

  /** The polynomial is divisible by 6 at every level. */
  lemma {:induction false} PolynomialIsCurve(level: nat)
    requires level >= 1
    ensures Polynomial(level) == 6 * Curve(level)
    ensures Polynomial(level) / 6 == Curve(level)
  {
    if level > 1 {
      PolynomialIsCurve(level - 1);
      GapIsSquare(level - 1);
      PolynomialGrows(level - 1);
    }
  }

  lemma PolynomialGrows(k: int)
    ensures Polynomial(k + 1) - Polynomial(k) == 3 * ((k - 3) * k + 4)
  {
    var k2 := k * k;
    var k3 := k * k2;
    assert (k - 5) * (k + 1) == k2 - 4 * k - 5;
    assert (k2 - 4 * k + 12) * (k + 1) == k3 - 3 * k2 + 8 * k + 12;
    assert (k - 6) * k == k2 - 6 * k;
    assert (k2 - 6 * k + 17) * k == k3 - 6 * k2 + 17 * k;
  }

  lemma {:induction false} CurveGrows(a: nat, b: nat)
    requires 1 <= a < b
    ensures Curve(a) < Curve(b)
    decreases b
  {
    GapPositive(b - 1);
    if a < b - 1 {
      CurveGrows(a, b - 1);
    }
  }

  lemma {:induction false} GapPositive(level: nat)
    ensures Gap(level) >= 1
  {
    if level > 1 {
      GapPositive(level - 1);
    }
  }

  /** The experience at which a level starts; -1 beyond the last one. */
  function ExpForLevel(level: int, delta: int): (exp: int) {
    if level < 1 || delta <= 0 then 0
    else if level > MAX_LEVEL then -1
    else Polynomial(level) / 6 * delta
  }

  lemma ExpGrows(a: nat, b: nat, delta: int)
    requires 1 <= a < b <= MAX_LEVEL && delta > 0
    ensures 0 <= ExpForLevel(a, delta) < ExpForLevel(b, delta)
  {
    PolynomialIsCurve(a);
    PolynomialIsCurve(b);
    CurveGrows(a, b);
    Scale(Curve(a), Curve(b), delta);
    if a > 1 {
      CurveGrows(1, a);
      Scale(0, Curve(a), delta);
    }
  }

  lemma Scale(a: int, b: int, delta: int)
    requires a < b && delta > 0
    ensures a * delta < b * delta
  {
  }

  /** No level's experience leaves 32 bits, up to a factor of 104, which is the largest one. */
  lemma ExpFits(level: nat, delta: int)
    requires 1 <= level <= MAX_LEVEL && delta > 0
    ensures delta <= 104 ==> ExpForLevel(level, delta) <= 0x7FFF_FFFF
    ensures delta > 104 ==> ExpForLevel(MAX_LEVEL, delta) > 0x7FFF_FFFF
  {
    assert Polynomial(500) / 6 == 20584748;
    if level < MAX_LEVEL {
      ExpGrows(level, MAX_LEVEL, delta);
    }
  }

  /** Exactly the levels beyond the last one have a negative start. */
  lemma ExpSign(level: nat, delta: int)
    requires level >= 1 && delta > 0
    ensures ExpForLevel(level, delta) < 0 <==> level > MAX_LEVEL
    ensures ExpForLevel(1, delta) == 0
  {
    assert Polynomial(1) == 0;
    if 1 < level <= MAX_LEVEL {
      ExpGrows(1, level, delta);
    }
  }

  // ---------------------------------------------------------- levels

  /** The last level up to `n` that starts at or below some experience. */
  function LevelUpTo(exp: int, delta: int, n: nat): nat {
    if n <= 1 || ExpForLevel(n, delta) <= exp then n else LevelUpTo(exp, delta, n - 1)
  }

  datatype Level = Level(act: int, exp: int, lastLevel: int, nextLevel: int, delta: int)

  function Reached(exp: int, delta: int): int {
    LevelUpTo(exp, delta, MAX_LEVEL - 1)
  }

  /** The bookkeeping that goes with some experience. */
  function AtExp(exp: int, delta: int): Level {
    var n := Reached(exp, delta);
    Level(n, exp, ExpForLevel(n, delta), ExpForLevel(n + 1, delta), delta)
  }

  /** Experience below the start of the last level. */
  predicate InRange(exp: int, delta: int) {
    delta > 0 && 0 <= exp < ExpForLevel(MAX_LEVEL, delta)
  }

  /** The level is the one whose experience encloses the present one. */
  lemma {:induction false} LevelEncloses(exp: int, delta: int, n: nat)
    requires delta > 0 && 1 <= n < MAX_LEVEL && 0 <= exp < ExpForLevel(n + 1, delta)
    ensures var l := LevelUpTo(exp, delta, n);
      1 <= l <= n && ExpForLevel(l, delta) <= exp < ExpForLevel(l + 1, delta)
  {
    if n > 1 && ExpForLevel(n, delta) > exp {
      LevelEncloses(exp, delta, n - 1);
    } else if n == 1 {
      assert Polynomial(1) == 0;
    }
  }

  lemma Enclosed(exp: int, delta: int)
    requires InRange(exp, delta)
    ensures var l := AtExp(exp, delta);
      && 1 <= l.act < MAX_LEVEL && l.exp == exp && l.delta == delta
      && l.lastLevel == ExpForLevel(l.act, delta) <= exp < ExpForLevel(l.act + 1, delta) == l.nextLevel
  {
    LevelEncloses(exp, delta, MAX_LEVEL - 1);
  }

  /** No other level encloses the same experience. */
  lemma OnlyLevel(exp: int, delta: int, n: nat)
    requires delta > 0 && 1 <= n < MAX_LEVEL && ExpForLevel(n, delta) <= exp < ExpForLevel(n + 1, delta)
    ensures InRange(exp, delta) && Reached(exp, delta) == n
  {
    if n + 1 < MAX_LEVEL {
      ExpGrows(n + 1, MAX_LEVEL, delta);
    }
    ExpGrows(n, n + 1, delta);
    Enclosed(exp, delta);
    var r := Reached(exp, delta);
    if r < n {
      if r + 1 < n { ExpGrows(r + 1, n, delta); }
    } else if n < r {
      if n + 1 < r { ExpGrows(n + 1, r, delta); }
    }
  }

  lemma ExpNotNegative(exp: int, delta: int)
    requires InRange(exp, delta)
    ensures exp >= 0
  {
  }

  lemma AtReached(l: Level)
    requires l.act == Reached(l.exp, l.delta)
    requires l.lastLevel == ExpForLevel(l.act, l.delta) && l.nextLevel == ExpForLevel(l.act + 1, l.delta)
    ensures l == AtExp(l.exp, l.delta)
  {
  }

  lemma LastStart()
    ensures ExpForLevel(MAX_LEVEL, 1) == 20584748
  {
  }

  /** What a gain does from the last level on. */
  function BeyondLast(l: Level, amount: int): Level {
    var exp := l.exp + amount;
    if exp < l.nextLevel then l.(exp := exp)
    else Level(l.act + 1, exp - 1000000, l.nextLevel, exp, l.delta)
  }

  /** No experience belongs to the level beyond the last one. */
  lemma LastIsNot(l: Level)
    requires l.act >= MAX_LEVEL
    ensures InRange(l.exp, l.delta) ==> l != AtExp(l.exp, l.delta)
  {
    if InRange(l.exp, l.delta) {
      Enclosed(l.exp, l.delta);
    }
  }

  // ---------------------------------------------------------- skills that grow with the level

  datatype Additional = Additional(act: int, max: int, addLevel: int)

  /** A change of the level moves value and maximum alike; the value never stays above. */
  function Advanced(s: Additional, range: int): Additional {
    var step := range * s.addLevel;
    Additional(if s.act > s.max then s.max + step else s.act + step, s.max + step, s.addLevel)
  }

  /** Going back undoes the change, except that a value above the maximum is cut. */
  lemma AdvanceBack(s: Additional, range: int)
    ensures Advanced(Advanced(s, range), -range) == s.(act := if s.act > s.max then s.max else s.act)
  {
    assert -range * s.addLevel == -(range * s.addLevel);
  }

  /** The part of a maximum that does not come from the level. */
  function Base(s: Additional, level: int): int {
    s.max - s.addLevel * level
  }

  lemma BaseStays(s: Additional, from: int, to: int)
    ensures Base(Advanced(s, to - from), to) == Base(s, from)
  {
    assert (to - from) * s.addLevel == s.addLevel * to - s.addLevel * from;
  }

  class SkillAdd {
    var act: int
    var max: int
    var addLevel: int

    ghost function View(): Additional
      reads this
    {
      Additional(act, max, addLevel)
    }

    method Advance(range: int)
      modifies this
      ensures View() == Advanced(old(View()), range)
      ensures addLevel == old(addLevel) && max == old(max) + range * addLevel
      ensures act == if old(act) > old(max) then max else old(act) + range * addLevel
    {
      var increment := range * addLevel;
      var newMax := max + increment;
      var newAct := act + increment;
      if newAct > newMax {
        newAct := newMax;
      }
      act := newAct;
      max := newMax;
    }
  }

  class SkillLevel {
    var act: int
    var exp: int
    var lastLevel: int
    var nextLevel: int
    var delta: int
    const hasMaster: bool
    const hitpoints: SkillAdd
    const mana: SkillAdd
    const goStrength: SkillAdd
    const carryStrength: SkillAdd

    ghost const growing: set<SkillAdd> := {hitpoints, mana, goStrength, carryStrength}

    ghost function View(): Level
      reads this
    {
      Level(act, exp, lastLevel, nextLevel, delta)
    }

    /** The bookkeeping agrees with the experience. */
    ghost predicate Valid()
      reads this
    {
      InRange(exp, delta) && View() == AtExp(exp, delta)
    }

    /** What an overflow leaves: a level from the last one on, and the next one out of reach
        of the present experience. */
    ghost predicate Overflown()
      reads this
    {
      act >= MAX_LEVEL && delta > 0 && exp < nextLevel
    }

    /** The four skills are different ones. */
    predicate Apart() {
      && hitpoints != mana && hitpoints != goStrength && hitpoints != carryStrength
      && mana != goStrength && mana != carryStrength && goStrength != carryStrength
    }

    /** The growing skills have followed a change of the level. */
    twostate predicate Followed(range: int)
      reads this, growing
    {
      forall s :: s in growing ==>
        s.View() == if hasMaster && range != 0 then Advanced(old(s.View()), range) else old(s.View())
    }

    /** The maxima of the growing skills have changed by the level's share alone. */
    twostate predicate KeptBase()
      reads this, growing
    {
      forall s :: s in growing ==> Base(s.View(), act) == old(Base(s.View(), act))
    }

    constructor (exp: int, delta: int, hasMaster: bool, hitpoints: SkillAdd, mana: SkillAdd, goStrength: SkillAdd, carryStrength: SkillAdd)
      requires InRange(exp, delta)
      ensures Valid() && this.exp == exp && this.delta == delta && this.hasMaster == hasMaster
      ensures this.hitpoints == hitpoints && this.mana == mana && this.goStrength == goStrength
      ensures this.carryStrength == carryStrength
    {
      this.exp, this.delta, this.hasMaster := exp, delta, hasMaster;
      act, lastLevel, nextLevel := AtExp(exp, delta).act, AtExp(exp, delta).lastLevel, AtExp(exp, delta).nextLevel;
      this.hitpoints, this.mana, this.goStrength, this.carryStrength := hitpoints, mana, goStrength, carryStrength;
    }

    method Jump(range: int) returns (done: bool)
      requires Apart()
      modifies growing
      ensures done == hasMaster
      ensures forall s :: s in growing ==> s.View() == if hasMaster then Advanced(old(s.View()), range) else old(s.View())
    {
      if !hasMaster {
        return false;
      }
      hitpoints.Advance(range);
      mana.Advance(range);
      goStrength.Advance(range);
      carryStrength.Advance(range);
      return true;
    }

    /**
      Adds experience.  The bookkeeping stays right if and only if the last level is
      not reached; there the server takes away what it calls an overflow.  From then on
      a call raises the level by one at most, whatever the amount, and always without
      the growing skills; no level is the last one.
    */
    method Increase(amount: int)
      requires (Valid() || Overflown()) && Apart()
      requires hasMaster || amount < 0 || (Valid() && InRange(exp + amount, delta)) || (Overflown() && exp + amount < nextLevel)
      modifies this, growing
      ensures amount < 0 ==> View() == old(View()) && Followed(0)
      ensures old(Valid()) ==> (Valid() <==> amount < 0 || InRange(old(exp) + amount, old(delta)))
      ensures amount >= 0 && old(Valid()) && Valid() ==>
        View() == AtExp(old(exp) + amount, old(delta)) && old(act) <= act && Followed(act - old(act))
      ensures old(Valid()) && !Valid() ==>
        && Overflown() && Followed(act - 1 - old(act))
        && View() == Level(MAX_LEVEL, old(exp) + amount - 1000000, ExpForLevel(MAX_LEVEL, old(delta)),
                           old(exp) + amount, old(delta))
      ensures old(Overflown()) && amount >= 0 ==>
        Overflown() && Followed(0) && View() == BeyondLast(old(View()), amount)
      ensures old(Overflown()) && amount >= 0 ==>
        var worth := old(exp) + amount;
        if worth < old(nextLevel) then act == old(act) && exp == worth && nextLevel == old(nextLevel)
        else act == old(act) + 1 && exp == worth - 1000000 && lastLevel == old(nextLevel) && nextLevel == worth
      ensures hasMaster && Valid() && old(Valid()) ==> KeptBase()
    {
      if amount < 0 {
        return;
      }
      hide *;
      var range := Climb(amount);
      if range != 0 {
        var _ := Jump(range);
      }
      forall s | s in growing && hasMaster && Valid() && old(Valid()) ensures Base(s.View(), act) == old(Base(s.View(), act)) {
        BaseStays(old(s.View()), old(act), act);
      }
    }

    /** Raises the level to what the experience is worth. */
    method Climb(amount: int) returns (range: nat)
      requires (Valid() || Overflown()) && amount >= 0
      modifies this
      ensures old(Valid()) ==> (Valid() <==> InRange(old(exp) + amount, old(delta)))
      ensures old(Valid()) && Valid() ==> View() == AtExp(old(exp) + amount, old(delta)) && act == old(act) + range
      ensures old(Valid()) && !Valid() ==>
        && Overflown() && act == old(act) + 1 + range
        && View() == Level(MAX_LEVEL, old(exp) + amount - 1000000, ExpForLevel(MAX_LEVEL, old(delta)),
                           old(exp) + amount, old(delta))
      ensures old(Overflown()) ==> Overflown() && range == 0 && View() == BeyondLast(old(View()), amount)
    {
      hide AtExp, Reached, ExpForLevel;
      if Valid() {
        Enclosed(exp, delta);
      }
      range := 0;
      exp := exp + amount;
      while exp >= nextLevel
        invariant exp == old(exp) + amount && delta == old(delta) && act == old(act) + range
        invariant old(Overflown()) ==> range == 0 && lastLevel == old(lastLevel) && nextLevel == old(nextLevel)
        invariant old(Valid()) ==>
          1 <= act < MAX_LEVEL && lastLevel == ExpForLevel(act, delta) <= exp && nextLevel == ExpForLevel(act + 1, delta)
        decreases MAX_LEVEL - act
      {
        ExpSign(act + 2, delta);
        act := act + 1;
        lastLevel := nextLevel;
        nextLevel := ExpForLevel(act + 1, delta);
        if nextLevel < 0 {
          LastIsNot(Level(act, exp - 1000000, lastLevel, exp, delta));
          nextLevel := exp;
          exp := exp - 1000000;
          return;
        }
        range := range + 1;
      }
      if old(Valid()) {
        OnlyLevel(exp, delta, act);
        AtReached(View());
      } else {
        LastIsNot(View());
      }
    }

    /** Takes experience away, down to none; an error leaves everything as it is. */
    method Decrease(amount: int)
      requires Valid() && Apart()
      modifies this, growing
      ensures Valid()
      ensures amount < 0 || (amount > old(exp) > 100000) ==> View() == old(View()) && Followed(0)
      ensures amount >= 0 && !(amount > old(exp) > 100000) ==>
        View() == AtExp(if amount < old(exp) then old(exp) - amount else 0, old(delta)) && Followed(act - old(act))
      ensures hasMaster ==> KeptBase()
    {
      if amount < 0 {
        return;
      }
      if amount > exp && exp > 100000 {
        return;
      }
      hide *;
      var range := Sink(amount);
      if range != 0 {
        var _ := Jump(range);
      }
      forall s | s in growing && hasMaster ensures Base(s.View(), act) == old(Base(s.View(), act)) {
        BaseStays(old(s.View()), old(act), act);
      }
    }

    /** Lowers the level to what the experience is worth. */
    method Sink(amount: nat) returns (range: int)
      requires Valid()
      modifies this
      ensures View() == AtExp(if amount < old(exp) then old(exp) - amount else 0, old(delta))
      ensures Valid() && act == old(act) + range
    {
      hide AtExp, Reached, ExpForLevel;
      Enclosed(exp, delta);
      if amount < exp {
        exp := exp - amount;
      } else {
        exp := 0;
      }
      range := 0;
      while exp < lastLevel
        invariant delta == old(delta) && act == old(act) + range
        invariant exp == if amount < old(exp) then old(exp) - amount else 0
        invariant 1 <= act < MAX_LEVEL && lastLevel == ExpForLevel(act, delta) && exp < nextLevel == ExpForLevel(act + 1, delta)
        decreases act
      {
        ExpSign(1, delta);
        act := act - 1;
        nextLevel := lastLevel;
        lastLevel := ExpForLevel(act, delta);
        range := range - 1;
      }
      OnlyLevel(exp, delta, act);
      AtReached(View());
    }

    /** Taking away what was just added restores the bookkeeping and the growing skills. */
    method GainAndLose(amount: int)
      requires Valid() && Apart() && amount >= 0 && InRange(exp + amount, delta)
      requires forall s :: s in growing ==> s.act <= s.max
      modifies this, growing
      ensures View() == old(View()) && Followed(0)
    {
      hide Reached, ExpForLevel, InRange, Advanced;
      assert exp >= 0 by { ExpNotNegative(exp, delta); }
      ghost var range := act;
      Increase(amount);
      range := act - range;
      label gained:
      Decrease(amount);
      assert act - old@gained(act) == -range;
      forall s | s in growing ensures s.View() == old(s.View()) {
        AdvanceBack(old(s.View()), range);
        if hasMaster && range != 0 {
          assert old@gained(s.View()) == Advanced(old(s.View()), range);
          assert s.View() == Advanced(old@gained(s.View()), -range);
        }
      }
    }

    /** From one point of experience below the last level, a gain of one overflows. */
    static method LastGain() returns (level: SkillLevel)
      ensures fresh(level) && level.act == MAX_LEVEL && level.exp < level.lastLevel && !level.Valid()
    {
      var a, b, c, d := new SkillAdd, new SkillAdd, new SkillAdd, new SkillAdd;
      LastStart();
      level := new SkillLevel(20584747, 1, true, a, b, c, d);
      level.Increase(1);
    }

    /** Over any gains and losses that stay below the last level the bookkeeping stays
        right, and the maxima keep what they are beyond the level's share. */
    method GainAndLoseAll(changes: seq<int>)
      requires Valid() && Apart() && InRange(exp + Gains(changes), delta)
      modifies this, growing
      ensures Valid() && delta == old(delta) && exp <= old(exp) + Gains(changes)
      ensures hasMaster ==> KeptBase()
    {
      var i := 0;
      while i < |changes|
        invariant i <= |changes| && Valid() && delta == old(delta)
        invariant exp + Gains(changes[i..]) <= old(exp) + Gains(changes)
        invariant hasMaster ==> KeptBase()
      {
        hide ExpForLevel, Reached, Base;
        assert changes[i..][0] == changes[i] && changes[i..][1..] == changes[i + 1..];
        GainsPositive(changes[i + 1..]);
        if changes[i] >= 0 {
          Increase(changes[i]);
        } else {
          Decrease(-changes[i]);
        }
        i := i + 1;
      }
    }
  }

  /** What a sequence of changes adds. */
  ghost function Gains(changes: seq<int>): int {
    if changes == [] then 0 else (if changes[0] > 0 then changes[0] else 0) + Gains(changes[1..])
  }

  lemma {:induction false} GainsPositive(changes: seq<int>)
    ensures Gains(changes) >= 0
  {
    if changes != [] {
      GainsPositive(changes[1..]);
    }
  }
}
