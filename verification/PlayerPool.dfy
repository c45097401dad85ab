/**
  The operations of the player pool, each as one thread runs it inside the mutex.
*/
module PlayerPools {
  import opened Common
  import opened PlayerPoolModel

  class PlayerPool<D(==)> {
    var slots: seq<Slot<D>>
    var disk: Disk<D>
    ghost var holders: set<(nat, nat)>

    ghost function View(): State<D>
      reads this
    {
      State(slots, disk, holders)
    }

    ghost predicate Valid()
      reads this
    {
      Inv(View())
    }

    constructor (size: nat, disk: Disk<D>)
      ensures Valid() && View() == EmptyPool(size, disk)
    {
      slots := seq(size, _ => Slot(0, 0, 0, false, None));
      this.disk := disk;
      holders := {};
    }

    /** The first slot that fits. */
    method FindSlot(test: Test) returns (i: nat)
      ensures i == First(test, slots) && i <= |slots|
    {
      hide First;
      i := 0;
      while i < |slots|
        invariant i <= |slots| && forall j :: 0 <= j < i ==> !Fits(test, slots[j])
      {
        if Fits(test, slots[i]) {
          return;
        }
        i := i + 1;
      }
    }

    method SaveSlot(i: nat)
      requires Valid() && i < |slots|
      modifies this
      ensures View() == Saved(old(View()), i)
      ensures disk == SavedTo(old(disk), old(slots)[i]) && slots == old(slots)[i := old(slots)[i].(dirty := false)]
    {
      assert SlotOk(View(), i);
      if slots[i].dirty {
        disk := Store(disk, slots[i].character, slots[i].data.value);
        slots := slots[i := slots[i].(dirty := false)];
      }
    }

    /** Empties a slot, unless it is still needed or owned by another thread. */
    method FreeSlot(i: nat, t: nat)
      requires Valid() && i < |slots|
      modifies this
      ensures var s := old(slots)[i];
        View() == if s.character == 0 || s.sticky > 0 || (s.locked != 0 && s.locked != t) then old(View())
                  else var r := Saved(old(View()), i); r.(slots := r.slots[i := r.slots[i].(character := 0)])
    {
      var s := slots[i];
      if s.character == 0 || s.sticky > 0 || (s.locked != 0 && s.locked != t) {
        return;
      }
      SaveSlot(i);
      slots := slots[i := slots[i].(character := 0)];
    }

    /**
      One pass of reserving a slot.  A new character's slot is still to be loaded;
      no slot means there is none, or that the owner has to be waited for.
    */
    method Assign(c: nat, t: nat, dontWait: bool) returns (slot: Option<nat>, wait: bool)
      requires Valid() && t != 0
      modifies this
      ensures Valid() && View() == Apply(old(View()), Step.Assign(c, t, dontWait))
      ensures wait <==> (c != 0 && !dontWait && LockedBySomeone(old(slots), c))
      ensures slot.Some? ==> slot.value < |slots| && slots[slot.value].character == c
      ensures slot.Some? && !(dontWait && old(slots)[slot.value].locked != 0) ==> (t, slot.value) in holders
      // A character that is in the pool: its slot is owned if it is free, or else claimed.
      ensures forall i :: 0 <= i < |old(slots)| && old(slots)[i].character == c != 0 ==>
        var was := old(slots)[i];
        && disk == old(disk)
        && (was.locked == 0 ==>
              slot == Some(i) && slots == old(slots)[i := was.(locked := t)] && holders == old(holders) + {(t, i)})
        && (was.locked != 0 ==> slot == (if dontWait then Some(i) else None) && holders == old(holders))
        && (was.locked != 0 ==> slots == if dontWait then old(slots)[i := was.(sticky := was.sticky + 1)] else old(slots))
      // One that is not gets a slot of its own, whose character is saved.
      ensures c != 0 && (forall i :: 0 <= i < |old(slots)| ==> old(slots)[i].character != c) ==> match slot
        case Some(v) => v < |old(slots)| && slots == old(slots)[v := Slot(c, t, 0, false, None)]
          && TakenFor(old(slots), v) && disk == SavedTo(old(disk), old(slots)[v]) && holders == old(holders) + {(t, v)}
        case None => slots == old(slots) && disk == old(disk) && holders == old(holders)
      ensures c == 0 ==> slot == None && slots == old(slots) && disk == old(disk) && holders == old(holders)
      ensures slot.None? && c != 0 && !wait ==>
        forall i :: 0 <= i < |slots| ==> old(slots)[i].locked != 0 || old(slots)[i].sticky != 0
    {
      hide First, Victim;
      StepKeeps(View(), Step.Assign(c, t, dontWait));
      slot, wait := None, false;
      if c == 0 {
        return;
      }
      var i := FindSlot(Has(c));
      assert forall j :: 0 <= j < i ==> !Fits(Has(c), slots[j]);
      if i < |slots| {
        OnlySlot(slots, i);
        if slots[i].locked == 0 {
          slots, holders := slots[i := slots[i].(locked := t)], holders + {(t, i)};
          slot := Some(i);
        } else if dontWait {
          slots := slots[i := slots[i].(sticky := slots[i].sticky + 1)];
          slot := Some(i);
        } else {
          wait := true;
        }
        return;
      }
      VictimIsIdle(slots);
      slot := Take(c, t);
      if slot.Some? {
        assert SlotOk(old(View()), slot.value);
      }
    }

    /** Gives a new character an empty slot or the one of an idle character, which is saved. */
    method Take(c: nat, t: nat) returns (slot: Option<nat>)
      requires Valid() && t != 0 && c != 0
      modifies this
      ensures var v := Victim(old(slots));
        && View() == (if v < |old(slots)| then Reserved(old(View()), v, c, t) else old(View()))
        && slot == (if v < |old(slots)| then Some(v) else None)
    {
      hide First, IsFirst;
      VictimIsIdle(slots);
      var i := FindSlot(Has(0));
      if i == |slots| {
        i := FindSlot(CleanIdle);
        if i == |slots| {
          i := FindSlot(Idle);
          if i == |slots| {
            return None;
          }
        }
        FreeSlot(i, t);
        assert slots[i := Slot(c, t, 0, false, None)] == Saved(old(View()), i).slots[i := Slot(c, t, 0, false, None)];
      }
      slots, holders := slots[i := Slot(c, t, 0, false, None)], holders + {(t, i)};
      return Some(i);
    }

    /** Fills a reserved slot; a failure gives it back as one step. */
    method Load(i: nat, t: nat, succeeds: bool)
      requires Valid() && Allowed(View(), Step.Load(i, t, succeeds))
      modifies this
      ensures Valid() && View() == Apply(old(View()), Step.Load(i, t, succeeds)) && disk == old(disk)
      ensures var was := old(slots)[i];
        slots == old(slots)[i :=
          if !succeeds then was.(character := 0, locked := 0)
          else was.(data := Some(if was.character in disk.files then disk.files[was.character] else disk.newcomer))]
    {
      StepKeeps(View(), Step.Load(i, t, succeeds));
      if succeeds {
        slots := slots[i := slots[i].(data := Some(Stored(disk, slots[i].character)))];
      } else {
        slots, holders := slots[i := slots[i].(character := 0, locked := 0)], holders - {(t, i)};
      }
    }

    /** Claims a slot, so that it stays in the pool without an owner. */
    method IncreaseSticky(i: nat)
      requires Valid() && i < |slots|
      modifies this
      ensures Valid() && View() == Apply(old(View()), Step.StickyUp(i)) && disk == old(disk) && holders == old(holders)
      ensures slots == old(slots)[i := old(slots)[i].(sticky := old(slots)[i].sticky + 1)]
    {
      StepKeeps(View(), Step.StickyUp(i));
      slots := slots[i := slots[i].(sticky := slots[i].sticky + 1)];
    }

    /** Gives a claim back. */
    method DecreaseSticky(i: nat)
      requires Valid() && i < |slots|
      modifies this
      ensures Valid() && View() == Apply(old(View()), Step.StickyDown(i)) && disk == old(disk) && holders == old(holders)
      ensures slots == old(slots)[i := old(slots)[i].(sticky := old(slots)[i].sticky - 1)]
    {
      StepKeeps(View(), Step.StickyDown(i));
      slots := slots[i := slots[i].(sticky := slots[i].sticky - 1)];
    }

    /** Gives a claim on the slot of a character back, if it has one. */
    method DecreaseStickyOf(c: nat)
      requires Valid()
      modifies this
      ensures Valid() && View() == Apply(old(View()), Step.StickyDownOf(c)) && disk == old(disk) && holders == old(holders)
      ensures forall i :: 0 <= i < |old(slots)| && old(slots)[i].character == c != 0 ==>
        slots == old(slots)[i := old(slots)[i].(sticky := old(slots)[i].sticky - 1)]
      ensures (c == 0 || forall i :: 0 <= i < |old(slots)| ==> old(slots)[i].character != c) ==> slots == old(slots)
    {
      hide First;
      StepKeeps(View(), Step.StickyDownOf(c));
      if c != 0 {
        var i := FindSlot(Has(c));
        assert forall j :: 0 <= j < i ==> !Fits(Has(c), slots[j]);
        if i < |slots| {
          OnlySlot(slots, i);
          slots := slots[i := slots[i].(sticky := slots[i].sticky - 1)];
        }
      }
    }

    /** One pass of owning the slot of a character that is in the pool. */
    method Attach(c: nat, t: nat) returns (slot: Option<nat>)
      requires Valid() && t != 0
      modifies this
      ensures Valid() && View() == Apply(old(View()), Step.Attach(c, t))
      ensures slot.Some? ==> c != 0 && (t, slot.value) in holders && slot.value < |slots| && slots[slot.value].character == c
      ensures disk == old(disk) && (slot.None? ==> slots == old(slots) && holders == old(holders))
      ensures forall i :: 0 <= i < |old(slots)| && old(slots)[i].character == c != 0 && old(slots)[i].locked == 0 ==>
        slot == Some(i) && slots == old(slots)[i := old(slots)[i].(locked := t)] && holders == old(holders) + {(t, i)}
      ensures forall i :: 0 <= i < |old(slots)| && old(slots)[i].character == c != 0 && old(slots)[i].locked != 0 ==> slot.None?
    {
      hide First;
      StepKeeps(View(), Step.Attach(c, t));
      slot := None;
      if c != 0 {
        var i := FindSlot(Has(c));
        assert forall j :: 0 <= j < i ==> !Fits(Has(c), slots[j]);
        if i < |slots| {
          OnlySlot(slots, i);
        }
        if i < |slots| && slots[i].locked == 0 {
          slots, holders := slots[i := slots[i].(locked := t)], holders + {(t, i)};
          slot := Some(i);
        }
      }
    }

    /** One pass of owning a slot found earlier. */
    method AttachSlot(i: nat, t: nat)
      requires t != 0 && i < |slots|
      modifies this
      ensures View() == Apply(old(View()), Step.AttachSlot(i, t)) && disk == old(disk)
      ensures old(slots)[i].locked == 0 ==>
        slots == old(slots)[i := old(slots)[i].(locked := t)] && holders == old(holders) + {(t, i)}
      ensures old(slots)[i].locked != 0 ==> slots == old(slots) && holders == old(holders)
    {
      if slots[i].locked == 0 {
        slots, holders := slots[i := slots[i].(locked := t)], holders + {(t, i)};
      }
    }

    /** Gives a slot back; nothing happens when another thread owns it. */
    method Release(i: nat, t: nat)
      requires Valid() && i < |slots| && t != 0 && Allowed(View(), Step.Release(i, t))
      modifies this
      ensures Valid() && View() == Apply(old(View()), Step.Release(i, t)) && (t, i) !in holders && disk == old(disk)
      ensures slots == if old(slots)[i].locked == t then old(slots)[i := old(slots)[i].(locked := 0)] else old(slots)
    {
      StepKeeps(View(), Step.Release(i, t));
      if slots[i].locked == 0 || slots[i].locked != t {
        return;
      }
      slots, holders := slots[i := slots[i].(locked := 0)], holders - {(t, i)};
    }

    /**
      Saves the slots that nobody uses, in a single thread: a run of careful steps
      after which no such slot is dirty, `recent` being those left a short time ago.
    */
    method SaveSlots(t: nat, recent: set<nat>) returns (ghost steps: seq<Step<D>>)
      requires Valid() && t != 0
      modifies this
      ensures Valid() && AllAllowed(old(View()), steps) && AllCareful(old(View()), steps)
      ensures View() == Run(old(View()), steps) && |slots| == |old(slots)|
      ensures forall i :: 0 <= i < |slots| && i !in recent ==> Calm(slots[i])
      ensures forall i :: 0 <= i < |slots| ==> slots[i] == old(slots)[i].(dirty := slots[i].dirty)
      ensures forall i :: 0 <= i < |slots| && (i in recent || Calm(old(slots)[i])) ==> slots[i] == old(slots)[i]
      ensures holders == old(holders)
    {
      steps := [];
      var i := 0;
      while i < |slots|
        invariant Valid() && AllAllowed(old(View()), steps) && AllCareful(old(View()), steps)
        invariant View() == Run(old(View()), steps) && |slots| == |old(slots)| && i <= |slots|
        invariant forall j :: 0 <= j < i && j !in recent ==> Calm(slots[j])
        invariant forall j :: 0 <= j < |slots| ==> slots[j] == old(slots)[j].(dirty := slots[j].dirty)
        invariant forall j :: 0 <= j < |slots| && (j >= i || j in recent || Calm(old(slots)[j])) ==> slots[j] == old(slots)[j]
        invariant holders == old(holders)
      {
        var s := slots[i];
        if !(s.character == 0 || s.locked != 0 || s.sticky > 0 || !s.dirty) && i !in recent {
          JoinRuns(old(View()), steps, SaveSteps(i, t));
          SaveIdle(i, t);
          steps := steps + SaveSteps(i, t);
        }
        i := i + 1;
      }
    }

    /** Locks, saves and releases a slot that nobody uses. */
    method SaveIdle(i: nat, t: nat)
      requires Valid() && t != 0 && i < |slots| && slots[i].character != 0 && slots[i].locked == 0 && slots[i].dirty
      modifies this
      ensures Valid() && AllAllowed(old(View()), SaveSteps(i, t)) && AllCareful(old(View()), SaveSteps(i, t))
      ensures View() == Run(old(View()), SaveSteps(i, t)) && slots == old(slots)[i := old(slots)[i].(dirty := false)]
      ensures holders == old(holders)
    {
      ghost var a := View();
      assert SlotOk(a, i);
      StepKeeps(a, Step.AttachSlot(i, t));
      AttachSlot(i, t);
      ghost var b := View();
      if slots[i].locked == t {
        StepKeeps(b, Step.Save(i, t));
        SaveSlot(i);
        ghost var c := View();
        Release(i, t);
        ThreeSteps(a, Step.AttachSlot(i, t), b, Step.Save(i, t), c, Step.Release(i, t));
      }
    }
  }

  ghost predicate LockedBySomeone<D>(slots: seq<Slot<D>>, c: nat) {
    exists i :: 0 <= i < |slots| && slots[i].character == c && slots[i].locked != 0
  }

  lemma OnlySlot<D>(slots: seq<Slot<D>>, i: nat)
    requires Unique(slots) && i < |slots| && slots[i].character != 0
    ensures forall j :: 0 <= j < |slots| && slots[j].character == slots[i].character ==> j == i
  {
  }

  predicate IsIdle<D>(s: Slot<D>) {
    s.locked == 0 && s.sticky == 0
  }

  /** Slot `v` may be given to a new character: it is empty, or nobody needs it and no
      slot is empty, and it is dirty only if every slot that nobody needs is. */
  ghost predicate TakenFor<D>(slots: seq<Slot<D>>, v: nat)
    requires v < |slots|
  {
    slots[v].character == 0 ||
    (&& IsIdle(slots[v])
     && (forall i :: 0 <= i < |slots| ==> slots[i].character != 0)
     && (slots[v].dirty ==> forall i :: 0 <= i < |slots| && IsIdle(slots[i]) ==> slots[i].dirty))
  }

  /** The files after what a slot holds has been saved. */
  function SavedTo<D>(disk: Disk<D>, s: Slot<D>): Disk<D> {
    if s.character != 0 && s.dirty && s.data.Some? then disk.(files := disk.files[s.character := s.data.value]) else disk
  }

  /** Only idle slots are taken, clean ones first, and all are in use when none is. */
  lemma VictimIsIdle<D>(slots: seq<Slot<D>>)
    ensures var v := Victim(slots);
      && v <= |slots|
      && (First(Has(0), slots) < |slots| ==> slots[v].character == 0)
      && (v < |slots| && First(Has(0), slots) == |slots| ==>
            slots[v].character != 0 && slots[v].locked == 0 && slots[v].sticky == 0)
      && (v < |slots| ==> TakenFor(slots, v))
      && (v == |slots| ==> forall i :: 0 <= i < |slots| ==> slots[i].locked != 0 || slots[i].sticky != 0)
  {
    var v := Victim(slots);
    if v < |slots| && First(Has(0), slots) == |slots| {
      assert forall i :: 0 <= i < |slots| ==> !Fits(Has(0), slots[i]);
      assert slots[v].dirty ==> forall i :: 0 <= i < |slots| ==> !Fits(CleanIdle, slots[i]);
    }
    if v == |slots| {
      assert forall i :: 0 <= i < |slots| ==> !Fits(Idle, slots[i]);
    }
  }

  function SaveSteps<D>(i: nat, t: nat): seq<Step<D>> {
    [Step.AttachSlot(i, t), Step.Save(i, t), Step.Release(i, t)]
  }

  /** A slot that need not be saved. */
  predicate Calm<D>(s: Slot<D>) {
    s.character == 0 || s.locked != 0 || s.sticky > 0 || !s.dirty
  }

  lemma ThreeSteps<D>(a: State<D>, x: Step<D>, b: State<D>, y: Step<D>, c: State<D>, z: Step<D>)
    requires Allowed(a, x) && Careful(a, x) && b == Apply(a, x)
    requires Allowed(b, y) && Careful(b, y) && c == Apply(b, y)
    requires Allowed(c, z) && Careful(c, z)
    ensures AllAllowed(a, [x, y, z]) && AllCareful(a, [x, y, z]) && Run(a, [x, y, z]) == Apply(c, z)
  {
    hide Apply, Allowed, Careful;
    assert [x, y, z][1..] == [y, z] && [y, z][1..] == [z];
    assert Run(c, [z]) == Apply(c, z);
    assert Run(b, [y, z]) == Apply(c, z);
    assert AllAllowed(c, [z]) && AllCareful(c, [z]);
    assert AllAllowed(b, [y, z]) && AllCareful(b, [y, z]);
  }

  lemma {:induction false} JoinRuns<D>(s: State<D>, a: seq<Step<D>>, b: seq<Step<D>>)
    requires AllAllowed(s, a) && AllCareful(s, a)
    ensures Run(s, a + b) == Run(Run(s, a), b)
    ensures AllAllowed(Run(s, a), b) ==> AllAllowed(s, a + b)
    ensures AllCareful(Run(s, a), b) ==> AllCareful(s, a + b)
    decreases |a|
  {
    hide Apply, Allowed, Careful;
    if a == [] {
      assert a + b == b;
    } else {
      JoinRuns(Apply(s, a[0]), a[1..], b);
      assert (a + b)[1..] == a[1..] + b;
    }
  }
}
