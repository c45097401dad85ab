/**
  The pool of player data: a fixed number of slots in front of the files, used by
  several threads.  A thread owns a slot while its number is in the lock; a sticky
  slot stays in the pool although nobody owns it.  Threads are modelled by the
  steps they take inside the pool's mutex, in any order.
*/
module PlayerPoolModel {
  import opened Common

  /** A slot: character 0 is an empty one; without data it is being loaded. */
  datatype Slot<D> = Slot(character: nat, locked: nat, sticky: int, dirty: bool, data: Option<D>)

  /** Files of characters, and the data of a character without a file. */
  datatype Disk<D> = Disk(files: map<nat, D>, newcomer: D)

  function Stored<D>(disk: Disk<D>, c: nat): D {
    if c in disk.files then disk.files[c] else disk.newcomer
  }

  function Store<D>(disk: Disk<D>, c: nat, d: D): Disk<D> {
    disk.(files := disk.files[c := d])
  }

  /** `holders` pairs threads with the slots they were given and have not given back. */
  datatype State<D> = State(slots: seq<Slot<D>>, disk: Disk<D>, holders: set<(nat, nat)>)

  // ---------------------------------------------------------- finding a slot

  datatype Test = Has(character: nat) | CleanIdle | Idle

  predicate Fits<D>(test: Test, s: Slot<D>) {
    match test
    case Has(c) => s.character == c
    case CleanIdle => s.locked == 0 && s.sticky == 0 && !s.dirty
    case Idle => s.locked == 0 && s.sticky == 0
  }

  /** `i` is the first slot that fits, or the number of slots when none does. */
  ghost predicate IsFirst<D>(test: Test, slots: seq<Slot<D>>, i: nat) {
    && i <= |slots| && (i < |slots| ==> Fits(test, slots[i]))
    && (forall j :: 0 <= j < i ==> !Fits(test, slots[j]))
  }

  ghost function First<D>(test: Test, slots: seq<Slot<D>>): (i: nat)
    ensures IsFirst(test, slots, i)
  {
    if slots == [] || Fits(test, slots[0]) then 0 else 1 + First(test, slots[1..])
  }

  /** The slot for a new character: an empty, a clean idle or at last any idle one. */
  ghost function Victim<D>(slots: seq<Slot<D>>): (i: nat) {
    var empty, clean := First(Has(0), slots), First(CleanIdle, slots);
    if empty < |slots| then empty else if clean < |slots| then clean else First(Idle, slots)
  }

  // ---------------------------------------------------------- steps

  datatype Step<D> =
    | Assign(c: nat, t: nat, dontWait: bool)
    | Load(i: nat, t: nat, succeeds: bool)
    | Attach(c: nat, t: nat)
    | AttachSlot(i: nat, t: nat)
    | StickyUp(i: nat)
    | StickyDown(i: nat)
    | StickyDownOf(c: nat)
    | Release(i: nat, t: nat)
    | Write(i: nat, t: nat, d: D)
    | MarkDirty(i: nat, t: nat)
    | Save(i: nat, t: nat)

  function Locked<D>(s: State<D>, i: nat, t: nat): State<D>
    requires i < |s.slots|
  {
    s.(slots := s.slots[i := s.slots[i].(locked := t)], holders := s.holders + {(t, i)})
  }

  function Saved<D>(s: State<D>, i: nat): State<D>
    requires i < |s.slots|
  {
    var slot := s.slots[i];
    if slot.dirty && slot.data.Some? then
      s.(slots := s.slots[i := slot.(dirty := false)], disk := Store(s.disk, slot.character, slot.data.value))
    else s
  }

  /** An idle slot is written back and given to another character. */
  function Reserved<D>(s: State<D>, i: nat, c: nat, t: nat): State<D>
    requires i < |s.slots|
  {
    var saved := if s.slots[i].character != 0 then Saved(s, i) else s;
    saved.(slots := saved.slots[i := Slot(c, t, 0, false, None)], holders := s.holders + {(t, i)})
  }

  function Sticky<D>(s: State<D>, i: nat, delta: int): State<D>
    requires i < |s.slots|
  {
    s.(slots := s.slots[i := s.slots[i].(sticky := s.slots[i].sticky + delta)])
  }

  ghost function Apply<D>(s: State<D>, step: Step<D>): State<D> {
    match step
    case Assign(c, t, dontWait) =>
      var i, v := First(Has(c), s.slots), Victim(s.slots);
      if c == 0 then s
      else if i < |s.slots| then
        if s.slots[i].locked == 0 then Locked(s, i, t) else if dontWait then Sticky(s, i, 1) else s
      else if v < |s.slots| then Reserved(s, v, c, t)
      else s
    case Load(i, t, succeeds) =>
      if i >= |s.slots| then s
      else if succeeds then
        s.(slots := s.slots[i := s.slots[i].(data := Some(Stored(s.disk, s.slots[i].character)))])
      else
        s.(slots := s.slots[i := s.slots[i].(character := 0, locked := 0)], holders := s.holders - {(t, i)})
    case Attach(c, t) =>
      var i := First(Has(c), s.slots);
      if c != 0 && i < |s.slots| && s.slots[i].locked == 0 then Locked(s, i, t) else s
    case AttachSlot(i, t) =>
      if i < |s.slots| && s.slots[i].locked == 0 then Locked(s, i, t) else s
    case StickyUp(i) => if i < |s.slots| then Sticky(s, i, 1) else s
    case StickyDown(i) => if i < |s.slots| then Sticky(s, i, -1) else s
    case StickyDownOf(c) =>
      var i := First(Has(c), s.slots);
      if c != 0 && i < |s.slots| then Sticky(s, i, -1) else s
    case Release(i, t) =>
      if i < |s.slots| && s.slots[i].locked == t != 0 then
        s.(slots := s.slots[i := s.slots[i].(locked := 0)], holders := s.holders - {(t, i)})
      else s
    case Write(i, t, d) =>
      if i < |s.slots| then s.(slots := s.slots[i := s.slots[i].(data := Some(d))]) else s
    case MarkDirty(i, t) =>
      if i < |s.slots| then s.(slots := s.slots[i := s.slots[i].(dirty := true)]) else s
    case Save(i, t) => if i < |s.slots| then Saved(s, i) else s
  }

  /**
    What the threads do: they touch data only of slots they were given, after the
    loading, and give back no slot they changed without marking it dirty.
  */
  ghost predicate Allowed<D>(s: State<D>, step: Step<D>) {
    match step
    case Assign(c, t, _) => t != 0
    case Load(i, t, _) => (t, i) in s.holders && i < |s.slots| && s.slots[i].character != 0 && s.slots[i].data.None?
    case Attach(c, t) => t != 0
    case AttachSlot(i, t) => t != 0
    case Release(i, t) => i < |s.slots| && s.slots[i].locked == t && s.slots[i].character != 0 ==> Settled(s, i)
    case Write(i, t, _) => (t, i) in s.holders && HasData(s, i)
    case MarkDirty(i, t) => (t, i) in s.holders && HasData(s, i)
    case Save(i, t) => (t, i) in s.holders
    case _ => true
  }

  predicate HasData<D>(s: State<D>, i: nat) {
    i < |s.slots| && s.slots[i].character != 0 && s.slots[i].data.Some?
  }

  /** What the file lacks will be written. */
  ghost predicate Settled<D>(s: State<D>, i: nat)
    requires i < |s.slots|
  {
    s.slots[i].data.Some? && (s.slots[i].dirty || s.slots[i].data.value == Stored(s.disk, s.slots[i].character))
  }

  /** A slot found earlier is locked only while a character is in it. */
  ghost predicate Careful<D>(s: State<D>, step: Step<D>) {
    step.AttachSlot? && step.i < |s.slots| ==> s.slots[step.i].character != 0
  }

  // ---------------------------------------------------------- what every step keeps

  ghost predicate Unique<D>(slots: seq<Slot<D>>) {
    forall i, j :: 0 <= i < j < |slots| && slots[i].character == slots[j].character ==> slots[i].character == 0
  }

  ghost predicate SlotOk<D>(s: State<D>, i: nat)
    requires i < |s.slots|
  {
    var slot := s.slots[i];
    && (slot.character == 0 ==> slot.locked == 0 && !slot.dirty)
    && (slot.data.None? ==> !slot.dirty)
    && (slot.character != 0 && slot.locked == 0 ==> Settled(s, i))
  }

  /** Who was given a slot is who is in its lock. */
  ghost predicate OneOwner<D>(s: State<D>) {
    forall t: nat, i: nat :: (t, i) in s.holders <==> i < |s.slots| && s.slots[i].locked == t != 0
  }

  ghost predicate Inv<D>(s: State<D>) {
    Unique(s.slots) && OneOwner(s) && forall i :: 0 <= i < |s.slots| ==> SlotOk(s, i)
  }

  function EmptyPool<D>(size: nat, disk: Disk<D>): State<D> {
    State(seq(size, _ => Slot(0, 0, 0, false, None)), disk, {})
  }

  /** The data of a character: those in the pool, or else those in its file. */
  ghost function Logical<D>(s: State<D>, c: nat): D {
    var i := First(Has(c), s.slots);
    if i < |s.slots| && s.slots[i].data.Some? then s.slots[i].data.value else Stored(s.disk, c)
  }

  lemma EmptyIsInv<D>(size: nat, disk: Disk<D>)
    ensures Inv(EmptyPool(size, disk))
  {
  }

  lemma FirstIsIt<D>(slots: seq<Slot<D>>, i: nat)
    requires Unique(slots) && i < |slots| && slots[i].character != 0
    ensures First(Has(slots[i].character), slots) == i
  {
    assert Fits(Has(slots[i].character), slots[i]);
  }

  // ---------------------------------------------------------- changes of one slot

  /** One slot changes, keeping its character; files of other characters stay. */
  lemma OneSlotKeeps<D>(s: State<D>, r: State<D>, i: nat)
    requires Inv(s) && OneOwner(r) && i < |s.slots| == |r.slots| && r.slots == s.slots[i := r.slots[i]]
    requires r.slots[i].character in {0, s.slots[i].character} || First(Has(r.slots[i].character), s.slots) == |s.slots|
    requires forall c :: c != 0 && c != s.slots[i].character ==> Stored(r.disk, c) == Stored(s.disk, c)
    requires SlotOk(r, i)
    ensures Inv(r)
  {
    assert Unique(r.slots) by {
      forall j | 0 <= j < |s.slots| && j != i ensures r.slots[j] == s.slots[j] {
        assert !Fits(Has(r.slots[i].character), s.slots[j]) || r.slots[i].character in {0, s.slots[i].character};
      }
    }
    forall j | 0 <= j < |r.slots| ensures SlotOk(r, j) {
      assert SlotOk(s, j);
    }
  }

  lemma LockedKeeps<D>(s: State<D>, i: nat, t: nat)
    requires Inv(s) && i < |s.slots| && s.slots[i].locked == 0 && s.slots[i].character != 0 && t != 0
    ensures Inv(Locked(s, i, t))
  {
    assert SlotOk(s, i);
    OneSlotKeeps(s, Locked(s, i, t), i);
  }

  lemma ReservedKeeps<D>(s: State<D>, c: nat, t: nat)
    requires Inv(s) && c != 0 && t != 0 && First(Has(c), s.slots) == |s.slots| && Victim(s.slots) < |s.slots|
    ensures Inv(Reserved(s, Victim(s.slots), c, t))
  {
    var v := Victim(s.slots);
    assert SlotOk(s, v);
    OneSlotKeeps(s, Reserved(s, v, c, t), v);
  }

  predicate AtSlot<D>(step: Step<D>) {
    step.Load? || step.StickyUp? || step.StickyDown? || step.Release? || step.Write? || step.MarkDirty? || step.Save?
  }

  lemma SlotStepKeeps<D>(s: State<D>, step: Step<D>)
    requires Inv(s) && Allowed(s, step) && AtSlot(step)
    ensures Inv(Apply(s, step))
  {
    hide First;
    var r := Apply(s, step);
    if r != s {
      assert SlotOk(s, step.i);
      OneSlotKeeps(s, r, step.i);
    }
  }

  /** Every step of a careful thread keeps the pool in order. */
  lemma StepKeeps<D>(s: State<D>, step: Step<D>)
    requires Inv(s) && Allowed(s, step) && Careful(s, step)
    ensures Inv(Apply(s, step))
  {
    hide First;
    var r := Apply(s, step);
    match step
    case Assign(c, t, dontWait) =>
      var i, v := First(Has(c), s.slots), Victim(s.slots);
      if c != 0 && i < |s.slots| {
        assert SlotOk(s, i);
        if s.slots[i].locked == 0 {
          LockedKeeps(s, i, t);
        } else if dontWait {
          OneSlotKeeps(s, r, i);
        }
      } else if c != 0 && v < |s.slots| {
        ReservedKeeps(s, c, t);
      }
    case Attach(c, t) =>
      var i := First(Has(c), s.slots);
      if r != s {
        LockedKeeps(s, i, t);
      }
    case AttachSlot(i, t) =>
      if r != s {
        LockedKeeps(s, i, t);
      }
    case StickyDownOf(c) =>
      var i := First(Has(c), s.slots);
      if r != s {
        assert SlotOk(s, i);
        OneSlotKeeps(s, r, i);
      }
    case _ => SlotStepKeeps(s, step);
  }

  // ---------------------------------------------------------- the data

  /** Whether a step changes the data of a character. */
  predicate Writes<D>(s: State<D>, step: Step<D>, c: nat) {
    step.Write? && step.i < |s.slots| && s.slots[step.i].character == c
  }

  lemma Resident<D>(s: State<D>, i: nat)
    requires Unique(s.slots) && i < |s.slots| && s.slots[i].character != 0
    ensures var slot := s.slots[i];
      Logical(s, slot.character) == if slot.data.Some? then slot.data.value else Stored(s.disk, slot.character)
  {
    FirstIsIt(s.slots, i);
  }

  lemma NotResident<D>(s: State<D>, c: nat)
    requires forall i :: 0 <= i < |s.slots| ==> s.slots[i].character != c
    ensures Logical(s, c) == Stored(s.disk, c)
  {
  }

  /** Characters that the changed slot does not carry, before or after. */
  lemma OthersLogical<D>(s: State<D>, r: State<D>, i: nat, c: nat)
    requires i < |s.slots| == |r.slots| && r.slots == s.slots[i := r.slots[i]] && Unique(s.slots) && Unique(r.slots)
    requires c != 0 && c != s.slots[i].character && c != r.slots[i].character && Stored(r.disk, c) == Stored(s.disk, c)
    ensures Logical(r, c) == Logical(s, c)
  {
    if j :| 0 <= j < |s.slots| && s.slots[j].character == c {
      Resident(s, j);
      Resident(r, j);
    } else {
      NotResident(s, c);
      NotResident(r, c);
    }
  }

  lemma ReservedLogical<D>(s: State<D>, c: nat, t: nat, d: nat)
    requires Inv(s) && c != 0 && d != 0 && t != 0
    requires First(Has(c), s.slots) == |s.slots| && Victim(s.slots) < |s.slots|
    ensures Logical(Reserved(s, Victim(s.slots), c, t), d) == Logical(s, d)
  {
    var v := Victim(s.slots);
    var r := Reserved(s, v, c, t);
    ReservedKeeps(s, c, t);
    if d == c {
      assert forall j :: 0 <= j < |s.slots| ==> !Fits(Has(c), s.slots[j]);
      NotResident(s, c);
      Resident(r, v);
    } else if d == s.slots[v].character {
      assert SlotOk(s, v);
      Resident(s, v);
      NotResident(r, d);
    } else {
      OthersLogical(s, r, v, d);
    }
  }

  /** A step inside one slot: only a write changes the data of a character. */
  lemma InsideLogical<D>(s: State<D>, step: Step<D>, i: nat, c: nat)
    requires Inv(s) && Inv(Apply(s, step)) && c != 0 && i < |s.slots|
    requires var r := Apply(s, step);
      && |r.slots| == |s.slots| && r.slots == s.slots[i := r.slots[i]] && (step.Write? ==> step.i == i)
      && (r.slots[i].character == s.slots[i].character ||
          (r.slots[i].character == 0 && s.slots[i].data.None?))
      && (step.Write? || r.slots[i].data == s.slots[i].data ||
          (s.slots[i].data.None? && r.slots[i].data == Some(Stored(s.disk, s.slots[i].character))))
      && (step.Write? ==> r.slots[i].data == Some(step.d))
      && (r.disk == s.disk || (r.slots[i].data.Some? && r.disk == Store(s.disk, s.slots[i].character, r.slots[i].data.value)))
    ensures Logical(Apply(s, step), c) == if Writes(s, step, c) then step.d else Logical(s, c)
  {
    var r := Apply(s, step);
    if c != s.slots[i].character {
      OthersLogical(s, r, i, c);
    } else {
      Resident(s, i);
      if r.slots[i].character == c {
        Resident(r, i);
      } else {
        NotResident(r, c);
      }
    }
  }

  /**
    Assigning, evicting, loading and saving do not change the data of any character;
    a write changes those of the character in the slot and nobody else's.
  */
  lemma StepLogical<D>(s: State<D>, step: Step<D>, c: nat)
    requires Inv(s) && Allowed(s, step) && Careful(s, step) && c != 0
    ensures Logical(Apply(s, step), c) == if Writes(s, step, c) then step.d else Logical(s, c)
  {
    StepKeeps(s, step);
    var r := Apply(s, step);
    match step
    case Assign(a, t, _) =>
      var i := First(Has(a), s.slots);
      if a != 0 && i == |s.slots| && r != s {
        ReservedLogical(s, a, t, c);
      } else if r != s {
        InsideLogical(s, step, i, c);
      }
    case Attach(a, _) =>
      if r != s {
        InsideLogical(s, step, First(Has(a), s.slots), c);
      }
    case StickyDownOf(a) =>
      if r != s {
        InsideLogical(s, step, First(Has(a), s.slots), c);
      }
    case _ =>
      if r != s {
        InsideLogical(s, step, step.i, c);
      }
  }

  /** A slot in use leaves its character only when its own loading fails. */
  lemma NotEvicted<D>(s: State<D>, step: Step<D>, i: nat)
    requires Inv(s) && Allowed(s, step)
    requires i < |s.slots| && s.slots[i].character != 0 && (s.slots[i].locked != 0 || s.slots[i].sticky != 0)
    requires !(step.Load? && step.i == i && !step.succeeds)
    ensures i < |Apply(s, step).slots| && Apply(s, step).slots[i].character == s.slots[i].character
    ensures s.slots[i].locked != 0 && Apply(s, step).slots[i].locked != s.slots[i].locked
            ==> step == Release(i, s.slots[i].locked)
  {
    if step.Assign? {
      assert forall test :: test in {CleanIdle, Idle} ==> !Fits(test, s.slots[i]);
      assert !Fits(Has(0), s.slots[i]);
    }
  }

  // ---------------------------------------------------------- whole runs

  ghost function Run<D>(s: State<D>, steps: seq<Step<D>>): State<D>
    decreases |steps|
  {
    if steps == [] then s else Run(Apply(s, steps[0]), steps[1..])
  }

  ghost predicate AllAllowed<D>(s: State<D>, steps: seq<Step<D>>)
    decreases |steps|
  {
    steps == [] || (Allowed(s, steps[0]) && AllAllowed(Apply(s, steps[0]), steps[1..]))
  }

  ghost predicate AllCareful<D>(s: State<D>, steps: seq<Step<D>>)
    decreases |steps|
  {
    steps == [] || (Careful(s, steps[0]) && AllCareful(Apply(s, steps[0]), steps[1..]))
  }

  /** What the last write to a character in a run left, `d` when there is none. */
  ghost function LastWritten<D>(s: State<D>, steps: seq<Step<D>>, c: nat, d: D): D
    decreases |steps|
  {
    if steps == [] then d
    else LastWritten(Apply(s, steps[0]), steps[1..], c, if Writes(s, steps[0], c) then steps[0].d else d)
  }

  lemma {:induction false} RunKeeps<D>(s: State<D>, steps: seq<Step<D>>, c: nat)
    requires Inv(s) && AllAllowed(s, steps) && AllCareful(s, steps) && c != 0
    ensures Inv(Run(s, steps))
    ensures Logical(Run(s, steps), c) == LastWritten(s, steps, c, Logical(s, c))
    decreases |steps|
  {
    if steps != [] {
      StepKeeps(s, steps[0]);
      StepLogical(s, steps[0], c);
      RunKeeps(Apply(s, steps[0]), steps[1..], c);
    }
  }

  /**
    However the threads are interleaved: no two slots carry one character, no slot
    has two owners, and the data of a character are those written last, wherever
    they are kept.
  */
  lemma PoolIsSafe<D>(size: nat, disk: Disk<D>, steps: seq<Step<D>>)
    requires AllAllowed(EmptyPool(size, disk), steps) && AllCareful(EmptyPool(size, disk), steps)
    ensures var s := Run(EmptyPool(size, disk), steps);
      && (forall i, j :: 0 <= i < j < |s.slots| && s.slots[i].character != 0 ==> s.slots[i].character != s.slots[j].character)
      && (forall t, u, i :: (t, i) in s.holders && (u, i) in s.holders ==> t == u)
      && (forall c :: c != 0 ==> Logical(s, c) == LastWritten(EmptyPool(size, disk), steps, c, Stored(disk, c)))
  {
    var pool := EmptyPool(size, disk);
    EmptyIsInv(size, disk);
    RunKeeps(pool, steps, 1);
    forall c: nat | c != 0 ensures Logical(Run(pool, steps), c) == LastWritten(pool, steps, c, Stored(disk, c)) {
      RunKeeps(pool, steps, c);
      NotResident(pool, c);
    }
  }

  // ---------------------------------------------------------- claims

  /** By how much a step changes the number of claims on slot `i`. */
  function Claims<D>(s: State<D>, step: Step<D>, i: nat): int
    requires i < |s.slots|
  {
    match step
    case StickyUp(j) => if j == i then 1 else 0
    case StickyDown(j) => if j == i then -1 else 0
    case StickyDownOf(c) => if c == s.slots[i].character then -1 else 0
    case Assign(c, _, dontWait) => if dontWait && c == s.slots[i].character && s.slots[i].locked != 0 then 1 else 0
    case _ => 0
  }

  /** Loading slot `i` fails. */
  predicate FailsToLoad<D>(step: Step<D>, i: nat) {
    step.Load? && step.i == i && !step.succeeds
  }

  lemma StepClaims<D>(s: State<D>, step: Step<D>, i: nat)
    requires Inv(s) && Allowed(s, step) && i < |s.slots| && s.slots[i].character != 0 && s.slots[i].sticky != 0
    requires s.slots[i].data.Some? || !FailsToLoad(step, i)
    ensures var r := Apply(s, step);
      && i < |r.slots| && r.slots[i].character == s.slots[i].character
      && r.slots[i].sticky == s.slots[i].sticky + Claims(s, step, i)
      && (s.slots[i].data.Some? ==> r.slots[i].data.Some?)
  {
    hide First, Victim;
    NotEvicted(s, step, i);
    FirstIsIt(s.slots, i);
    if step.Assign? {
      VictimIsFree(s.slots, i);
    }
  }

  lemma VictimIsFree<D>(slots: seq<Slot<D>>, i: nat)
    requires i < |slots| && slots[i].character != 0 && slots[i].sticky != 0
    ensures Victim(slots) != i
  {
    hide First;
    assert !Fits(Has(0), slots[i]) && !Fits(CleanIdle, slots[i]) && !Fits(Idle, slots[i]);
  }

  /** The claims on slot `i` never run out in a run, starting with `claims` of them. */
  ghost predicate StaysClaimed<D>(s: State<D>, steps: seq<Step<D>>, i: nat, claims: int)
    requires i < |s.slots|
    decreases |steps|
  {
    && claims > 0
    && (steps != [] ==>
          && i < |Apply(s, steps[0]).slots|
          && StaysClaimed(Apply(s, steps[0]), steps[1..], i, claims + Claims(s, steps[0], i)))
  }

  /** How many claims a run adds, less those it gives back. */
  ghost function Balance<D>(s: State<D>, steps: seq<Step<D>>, i: nat): int
    decreases |steps|
  {
    if steps == [] || i >= |s.slots| then 0 else Claims(s, steps[0], i) + Balance(Apply(s, steps[0]), steps[1..], i)
  }

  /** While claims are left a slot keeps its character, however the threads are
      interleaved, and the slot knows how many there are. */
  lemma {:induction false} ClaimedStays<D>(s: State<D>, steps: seq<Step<D>>, i: nat)
    requires Inv(s) && AllAllowed(s, steps) && AllCareful(s, steps) && i < |s.slots| && s.slots[i].character != 0
    requires StaysClaimed(s, steps, i, s.slots[i].sticky)
    requires s.slots[i].data.Some? || forall step :: step in steps ==> !FailsToLoad(step, i)
    ensures var r := Run(s, steps);
      && i < |r.slots| && r.slots[i].character == s.slots[i].character
      && r.slots[i].sticky == s.slots[i].sticky + Balance(s, steps, i) > 0
    decreases |steps|
  {
    hide Inv, Apply, Allowed, Careful, Claims, FailsToLoad;
    if steps != [] {
      assert steps[0] in steps && forall step :: step in steps[1..] ==> step in steps;
      StepKeeps(s, steps[0]);
      StepClaims(s, steps[0], i);
      ClaimedStays(Apply(s, steps[0]), steps[1..], i);
    }
  }

  /** No step of a run gives back a claim on slot `i` or on character `c`. */
  ghost predicate NoDown<D>(steps: seq<Step<D>>, i: nat, c: nat) {
    forall step :: step in steps ==>
      !(step.StickyDown? && step.i == i) && !(step.StickyDownOf? && step.c == c)
  }

  lemma {:induction false} NoDownClaimed<D>(s: State<D>, steps: seq<Step<D>>, i: nat, claims: int)
    requires Inv(s) && AllAllowed(s, steps) && AllCareful(s, steps) && i < |s.slots| && s.slots[i].character != 0
    requires s.slots[i].sticky == claims > 0 && s.slots[i].data.Some? && NoDown(steps, i, s.slots[i].character)
    ensures StaysClaimed(s, steps, i, claims)
    decreases |steps|
  {
    hide Inv, Apply, Allowed, Careful;
    if steps != [] {
      assert steps[0] in steps && forall step :: step in steps[1..] ==> step in steps;
      StepKeeps(s, steps[0]);
      StepClaims(s, steps[0], i);
      NoDownClaimed(Apply(s, steps[0]), steps[1..], i, claims + Claims(s, steps[0], i));
    }
  }

  /** After a run in which no claim is given back, slot `i` has lost its character. */
  ghost predicate Loses<D>(s: State<D>, steps: seq<Step<D>>, i: nat, c: nat) {
    && AllAllowed(s, steps) && AllCareful(s, steps) && NoDown(steps, i, c)
    && !(i < |Run(s, steps).slots| && Run(s, steps).slots[i].character == c)
  }

  /**
    A login that does not wait for the owner of a slot claims it.  As long as no claim
    is given back the slot can lose the character if and only if its data were still
    being loaded.
  */
  lemma LoginLoses<D>(s: State<D>, i: nat, t: nat)
    requires Inv(s) && t != 0 && i < |s.slots| && s.slots[i].character != 0
    requires s.slots[i].locked != 0 && s.slots[i].sticky >= 0
    ensures var c := s.slots[i].character;
      var r := Apply(s, Assign(c, t, true));
      s.slots[i].data.None? <==> exists steps :: Loses(r, steps, i, c)
  {
    hide First, Loses;
    var c := s.slots[i].character;
    var r := Apply(s, Assign(c, t, true));
    FirstIsIt(s.slots, i);
    assert r == Sticky(s, i, 1);
    StepKeeps(s, Assign(c, t, true));
    if s.slots[i].data.None? {
      LoadFails(r, i);
    } else {
      forall steps ensures !Loses(r, steps, i, c) {
        KeptByLogin(r, steps, i);
      }
    }
  }

  lemma LoadFails<D>(s: State<D>, i: nat)
    requires Inv(s) && i < |s.slots| && s.slots[i].character != 0 && s.slots[i].locked != 0 && s.slots[i].data.None?
    ensures exists steps :: Loses(s, steps, i, s.slots[i].character)
  {
    var u := s.slots[i].locked;
    var steps := [Load(i, u, false)];
    assert (u, i) in s.holders;
    Unfold(s, steps);
    assert steps[1..] == [];
    assert Run(s, steps) == Apply(s, steps[0]);
    assert Loses(s, steps, i, s.slots[i].character);
  }

  lemma KeptByLogin<D>(s: State<D>, steps: seq<Step<D>>, i: nat)
    requires Inv(s) && i < |s.slots| && s.slots[i].character != 0 && s.slots[i].sticky > 0 && s.slots[i].data.Some?
    ensures !Loses(s, steps, i, s.slots[i].character)
  {
    hide Inv;
    if AllAllowed(s, steps) && AllCareful(s, steps) && NoDown(steps, i, s.slots[i].character) {
      NoDownClaimed(s, steps, i, s.slots[i].sticky);
      ClaimedStays(s, steps, i);
    }
  }

  // ---------------------------------------------------------- locking a slot found earlier

  /** After a run of careful steps two threads own a slot. */
  ghost predicate Shares<D>(s: State<D>, steps: seq<Step<D>>, i: nat, t: nat, u: nat) {
    && AllAllowed(s, steps) && AllCareful(s, steps)
    && t != u && (t, i) in Run(s, steps).holders && (u, i) in Run(s, steps).holders
  }

  /**
    After a slot that was found earlier has been locked, two threads can come to own
    it, all being careful from then on, if and only if it was empty by then.
  */
  lemma AttachSlotShares<D>(s: State<D>, i: nat, t: nat)
    requires Inv(s) && i < |s.slots| && t != 0
    ensures s.slots[i].character == 0 <==>
      exists steps, a, b :: Shares(Apply(s, AttachSlot(i, t)), steps, i, a, b)
  {
    var r := Apply(s, AttachSlot(i, t));
    if s.slots[i].character != 0 {
      StepKeeps(s, AttachSlot(i, t));
      forall steps, a, b ensures !Shares(r, steps, i, a, b) {
        if AllAllowed(r, steps) && AllCareful(r, steps) {
          RunKeeps(r, steps, 1);
        }
      }
    } else {
      assert SlotOk(s, i);
      var steps := GivenAway(r, i, t, t + 1);
      assert Shares(r, steps, i, t, t + 1);
    }
  }

  /** A character number that is in no slot. */
  ghost function Unused<D>(slots: seq<Slot<D>>): (c: nat)
    ensures c > 0 && forall i :: 0 <= i < |slots| ==> slots[i].character < c
  {
    if slots == [] then 1
    else
      var c := Unused(slots[1..]);
      assert forall i :: 0 < i < |slots| ==> slots[i] == slots[1..][i - 1];
      if slots[0].character < c then c else slots[0].character + 1
  }

  /** Enough assignments of new characters give an empty slot away, although it is locked. */
  lemma {:induction false} GivenAway<D>(s: State<D>, i: nat, t: nat, u: nat) returns (steps: seq<Step<D>>)
    requires i < |s.slots| && s.slots[i].character == 0 && (t, i) in s.holders && u != 0
    ensures AllAllowed(s, steps) && AllCareful(s, steps)
    ensures (t, i) in Run(s, steps).holders && (u, i) in Run(s, steps).holders
    decreases i - First(Has(0), s.slots)
  {
    var first, c := First(Has(0), s.slots), Unused(s.slots);
    assert first <= i by { assert Fits(Has(0), s.slots[i]); }
    var r := Apply(s, Assign(c, u, false));
    assert r == Reserved(s, first, c, u) by { AssignedFirst(s, c, u, i); }
    if first == i {
      steps := [Assign(c, u, false)];
      assert steps[1..] == [];
      assert Run(r, []) == r;
    } else {
      assert First(Has(0), r.slots) > first by { LaterEmpty(s.slots, r.slots, first); }
      var rest := GivenAway(r, i, t, u);
      steps := [Assign(c, u, false)] + rest;
      assert steps[1..] == rest;
    }
  }

  lemma AssignedFirst<D>(s: State<D>, c: nat, u: nat, i: nat)
    requires i < |s.slots| && s.slots[i].character == 0 && c > 0
    requires forall j :: 0 <= j < |s.slots| ==> s.slots[j].character != c
    ensures First(Has(0), s.slots) < |s.slots|
    ensures Apply(s, Assign(c, u, false)) == Reserved(s, First(Has(0), s.slots), c, u)
  {
    hide First;
    assert Fits(Has(0), s.slots[i]);
    assert First(Has(c), s.slots) == |s.slots|;
  }

  lemma LaterEmpty<D>(a: seq<Slot<D>>, b: seq<Slot<D>>, first: nat)
    requires first == First(Has(0), a) < |a| == |b| && b[first].character != 0
    requires forall j :: 0 <= j < |a| && j != first ==> b[j] == a[j]
    ensures First(Has(0), b) > first
  {
    hide First;
    forall j | 0 <= j <= first ensures !Fits(Has(0), b[j]) {
      assert j < first ==> !Fits(Has(0), a[j]);
    }
  }

  // ---------------------------------------------------------- giving a slot back in two writes

  /** The thread that takes a step, if the step is bound to one. */
  predicate TakenBy<D>(step: Step<D>, t: nat) {
    match step
    case StickyUp(_) => false
    case StickyDown(_) => false
    case StickyDownOf(_) => false
    case _ => step.t == t
  }

  /** A failed load first empties the slot ... */
  function Emptied<D>(s: State<D>, i: nat): State<D>
    requires i < |s.slots|
  {
    s.(slots := s.slots[i := s.slots[i].(character := 0)])
  }

  /** ... and then clears the lock, whoever is in it by then. */
  function Unlocked<D>(s: State<D>, i: nat, t: nat): State<D>
    requires i < |s.slots|
  {
    s.(slots := s.slots[i := s.slots[i].(locked := 0)], holders := s.holders - {(t, i)})
  }

  /** The pool as if the thread that gives its slot back had never had it. */
  function Without<D>(s: State<D>, i: nat, t: nat): State<D>
    requires i < |s.slots|
  {
    if s.slots[i].locked == t then Unlocked(s, i, t) else s.(holders := s.holders - {(t, i)})
  }

  /** Between the two writes of a thread the pool is in order apart from its slot. */
  ghost predicate InBetween<D>(s: State<D>, i: nat, t: nat) {
    && i < |s.slots| && t != 0 && Inv(Without(s, i, t))
    && (s.slots[i].locked == t ==> s.slots[i].character == 0)
  }

  lemma EmptiedIsInBetween<D>(s: State<D>, i: nat, t: nat)
    requires Inv(s) && Allowed(s, Load(i, t, false))
    ensures InBetween(Emptied(s, i), i, t)
  {
    hide Inv;
    StepKeeps(s, Load(i, t, false));
    HolderLocks(s, i, t);
    assert Without(Emptied(s, i), i, t) == Apply(s, Load(i, t, false));
  }

  lemma HolderLocks<D>(s: State<D>, i: nat, t: nat)
    requires Inv(s) && (t, i) in s.holders
    ensures i < |s.slots| && s.slots[i].locked == t != 0
  {
  }

  /** The steps of other threads do not depend on the slot that is being given back. */
  lemma StepWithout<D>(s: State<D>, step: Step<D>, i: nat, t: nat)
    requires InBetween(s, i, t) && Allowed(s, step) && Careful(s, step) && !TakenBy(step, t)
    ensures Allowed(Without(s, i, t), step) && Careful(Without(s, i, t), step)
    ensures |Apply(s, step).slots| == |s.slots|
    ensures Without(Apply(s, step), i, t) == Apply(Without(s, i, t), step)
    ensures Apply(s, step).slots[i].locked == t ==> Apply(s, step).slots[i].character == 0
  {
    hide First, Inv, Victim;
    SameSearch(s, i, t);
    EmptyHasNoHolder(Without(s, i, t), i);
    if step.Assign? {
      AssignWithout(s, step, i, t);
    } else if step.Attach? || step.StickyDownOf? {
      SearchWithout(s, step, i, t);
    } else {
      SlotWithout(s, step, i, t);
    }
  }

  lemma AssignWithout<D>(s: State<D>, step: Step<D>, i: nat, t: nat)
    requires i < |s.slots| && step.Assign? && step.t != t && step.t != 0 && t != 0
    requires s.slots[i].locked == t ==> s.slots[i].character == 0
    requires var r := Without(s, i, t);
      && Victim(r.slots) == Victim(s.slots) && First(Has(step.c), r.slots) == First(Has(step.c), s.slots)
      && (r.slots[i].character == 0 ==> !r.slots[i].dirty)
    ensures |Apply(s, step).slots| == |s.slots|
    ensures Without(Apply(s, step), i, t) == Apply(Without(s, i, t), step)
    ensures Apply(s, step).slots[i].locked == t ==> Apply(s, step).slots[i].character == 0
  {
    hide First, Victim;
    var j, v := First(Has(step.c), s.slots), Victim(s.slots);
    if step.c != 0 {
      if j < |s.slots| {
        assert s.slots[j].character == step.c;
      } else if v < |s.slots| {
        assert (s.holders + {(step.t, v)}) - {(t, i)} == (s.holders - {(t, i)}) + {(step.t, v)};
      }
    }
  }

  lemma SearchWithout<D>(s: State<D>, step: Step<D>, i: nat, t: nat)
    requires i < |s.slots| && t != 0 && (step.Attach? || step.StickyDownOf?) && (step.Attach? ==> step.t != t && step.t != 0)
    requires s.slots[i].locked == t ==> s.slots[i].character == 0
    requires First(Has(step.c), Without(s, i, t).slots) == First(Has(step.c), s.slots)
    ensures |Apply(s, step).slots| == |s.slots|
    ensures Without(Apply(s, step), i, t) == Apply(Without(s, i, t), step)
    ensures Apply(s, step).slots[i].locked == t ==> Apply(s, step).slots[i].character == 0
  {
    hide First;
  }

  lemma SlotWithout<D>(s: State<D>, step: Step<D>, i: nat, t: nat)
    requires i < |s.slots| && t != 0 && (AtSlot(step) || step.AttachSlot?) && !TakenBy(step, t)
    requires s.slots[i].locked == t ==> s.slots[i].character == 0
    requires Allowed(s, step) && Careful(s, step)
    requires s.slots[i].locked == t ==> forall u: nat :: u != t ==> (u, i) !in s.holders
    ensures Allowed(Without(s, i, t), step) && Careful(Without(s, i, t), step)
    ensures |Apply(s, step).slots| == |s.slots|
    ensures Without(Apply(s, step), i, t) == Apply(Without(s, i, t), step)
    ensures Apply(s, step).slots[i].locked == t ==> Apply(s, step).slots[i].character == 0
  {
  }

  lemma SameSearch<D>(s: State<D>, i: nat, t: nat)
    requires i < |s.slots| && (s.slots[i].locked == t ==> s.slots[i].character == 0)
    ensures var r := Without(s, i, t);
      Victim(r.slots) == Victim(s.slots) && forall c :: First(Has(c), r.slots) == First(Has(c), s.slots)
  {
    var r := Without(s, i, t);
    forall c ensures First(Has(c), r.slots) == First(Has(c), s.slots) {
      SameFirst(Has(c), r.slots, s.slots);
    }
    if s.slots[i].locked == t {
      assert Fits(Has(0), s.slots[i]);
    } else {
      assert r.slots == s.slots;
    }
  }

  lemma {:induction false} SameFirst<D>(test: Test, a: seq<Slot<D>>, b: seq<Slot<D>>)
    requires |a| == |b| && forall j :: 0 <= j < |a| ==> (Fits(test, a[j]) <==> Fits(test, b[j]))
    ensures First(test, a) == First(test, b)
    decreases |a|
  {
    if a != [] {
      assert Fits(test, a[0]) <==> Fits(test, b[0]);
      SameFirst(test, a[1..], b[1..]);
    }
  }

  lemma EmptyHasNoHolder<D>(s: State<D>, i: nat)
    requires Inv(s) && i < |s.slots|
    ensures s.slots[i].character == 0 ==> s.slots[i].locked == 0 && !s.slots[i].dirty && forall u: nat :: (u, i) !in s.holders
  {
    assert SlotOk(s, i);
  }

  lemma {:induction false} RunInBetween<D>(s: State<D>, steps: seq<Step<D>>, i: nat, t: nat)
    requires InBetween(s, i, t) && AllAllowed(s, steps) && AllCareful(s, steps)
    requires forall k :: 0 <= k < |steps| ==> !TakenBy(steps[k], t)
    ensures InBetween(Run(s, steps), i, t)
    decreases |steps|
  {
    hide Inv, Apply, Allowed, Careful;
    if steps != [] {
      StepWithout(s, steps[0], i, t);
      StepKeeps(Without(s, i, t), steps[0]);
      RunInBetween(Apply(s, steps[0]), steps[1..], i, t);
    }
  }

  /**
    When a failed load gives its slot back in two writes, with any steps of other
    threads in between, two threads can come to own the slot afterwards if and only
    if another thread is in the lock at the second write.
  */
  lemma RollbackShares<D>(s: State<D>, i: nat, t: nat, between: seq<Step<D>>)
    requires i < |s.slots| && Inv(s) && Allowed(s, Load(i, t, false))
    requires AllAllowed(Emptied(s, i), between) && AllCareful(Emptied(s, i), between)
    requires forall k :: 0 <= k < |between| ==> !TakenBy(between[k], t)
    ensures var h := Run(Emptied(s, i), between);
      && i < |h.slots|
      && (h.slots[i].locked !in {0, t} <==> exists steps, a, b :: Shares(Unlocked(h, i, t), steps, i, a, b))
  {
    hide Inv, Apply, Allowed, Careful, Shares;
    EmptiedIsInBetween(s, i, t);
    RunInBetween(Emptied(s, i), between, i, t);
    var h := Run(Emptied(s, i), between);
    var r := Unlocked(h, i, t);
    if h.slots[i].locked in {0, t} {
      assert r.slots == Without(h, i, t).slots;
      forall steps, a, b ensures !Shares(r, steps, i, a, b) {
        NeverShared(r, steps, i, a, b);
      }
    } else {
      var u := h.slots[i].locked;
      StolenLock(h, i, t, u);
    }
  }

  lemma NeverShared<D>(s: State<D>, steps: seq<Step<D>>, i: nat, a: nat, b: nat)
    requires Inv(s)
    ensures !Shares(s, steps, i, a, b)
  {
    if AllAllowed(s, steps) && AllCareful(s, steps) {
      RunKeeps(s, steps, 1);
    }
  }

  /** A lock that was cleared under its owner can be taken by a third thread. */
  lemma StolenLock<D>(h: State<D>, i: nat, t: nat, u: nat)
    requires InBetween(h, i, t) && h.slots[i].locked == u && u != 0 && u != t
    ensures exists steps, a, b :: Shares(Unlocked(h, i, t), steps, i, a, b)
  {
    var r, v := Unlocked(h, i, t), u + 1;
    var w := Without(h, i, t);
    assert SlotOk(w, i) && (u, i) in w.holders;
    var c := h.slots[i].character;
    assert Unique(w.slots);
    FirstIsIt(r.slots, i);
    var steps := [Assign(c, v, false)];
    assert steps[1..] == [];
    assert Apply(r, steps[0]) == Locked(r, i, v);
    assert Run(r, steps) == Run(Locked(r, i, v), []);
    assert Shares(r, steps, i, u, v);
  }

  /**
    It does happen: between the moment the periodic saving picks a dirty slot and the
    moment it locks it, another thread evicts the slot and then fails to load its own
    character.  Both the saving thread 2 and thread 3 then own the slot.
  */
  lemma TwoOwners(d: int)
    ensures var pool := EmptyPool(1, Disk(map[], 0));
      && AllAllowed(pool, FirstLogin(d)) && AllAllowed(Run(pool, FirstLogin(d)), FailedLogin())
      && Run(pool, FirstLogin(d)).slots == [Slot(1, 0, 0, true, Some(d))]
      && Run(Run(pool, FirstLogin(d)), FailedLogin()).holders == {(2, 0), (3, 0)}
  {
    LoginRun(d);
    FailedRun(d);
  }

  /** Thread 1 loads, changes and releases the data of character 1. */
  function FirstLogin(d: int): seq<Step<int>> {
    [Assign(1, 1, false), Load(0, 1, true), Write(0, 1, d), MarkDirty(0, 1), Release(0, 1)]
  }

  /** Thread 1 evicts it for character 2, whose data cannot be loaded, before thread 2 locks the slot. */
  function FailedLogin(): seq<Step<int>> {
    [Assign(2, 1, false), Load(0, 1, false), AttachSlot(0, 2), Assign(3, 3, false)]
  }

  lemma LoginRun(d: int)
    ensures var pool := EmptyPool(1, Disk(map[], 0));
      && AllAllowed(pool, FirstLogin(d))
      && Run(pool, FirstLogin(d)) == State([Slot(1, 0, 0, true, Some(d))], Disk(map[], 0), {})
  {
    hide First;
    var disk := Disk(map[], 0);
    var pool := EmptyPool(1, disk);
    var s1 := State([Slot(1, 1, 0, false, None)], disk, {(1, 0)});
    var s2 := s1.(slots := [Slot(1, 1, 0, false, Some(0))]);
    var s3 := s1.(slots := [Slot(1, 1, 0, false, Some(d))]);
    var s4 := s1.(slots := [Slot(1, 1, 0, true, Some(d))]);
    var s5 := State([Slot(1, 0, 0, true, Some(d))], disk, {});
    var a := FirstLogin(d);
    assert pool.slots == [Slot(0, 0, 0, false, None)];
    assert Apply(pool, a[0]) == Reserved(pool, 0, 1, 1);
    assert Apply(pool, a[0]) == s1;
    assert Apply(s1, a[1]) == s2;
    assert Apply(s2, a[2]) == s3;
    assert Apply(s3, a[3]) == s4;
    assert Apply(s4, a[4]) == s5;
    Unfold(pool, a);
    Unfold(s1, a[1..]);
    Unfold(s2, a[2..]);
    Unfold(s3, a[3..]);
    Unfold(s4, a[4..]);
  }

  lemma FailedRun(d: int)
    ensures var s := State([Slot(1, 0, 0, true, Some(d))], Disk(map[], 0), {});
      AllAllowed(s, FailedLogin()) && Run(s, FailedLogin()).holders == {(2, 0), (3, 0)}
  {
    hide First;
    var disk := Disk(map[], 0);
    var s5 := State([Slot(1, 0, 0, true, Some(d))], disk, {});
    var saved := Disk(map[1 := d], 0);
    var s6 := State([Slot(2, 1, 0, false, None)], saved, {(1, 0)});
    var s7 := State([Slot(0, 0, 0, false, None)], saved, {});
    var s8 := State([Slot(0, 2, 0, false, None)], saved, {(2, 0)});
    var s9 := State([Slot(3, 3, 0, false, None)], saved, {(2, 0), (3, 0)});
    var b := FailedLogin();
    assert First(Has(2), s5.slots) == First(Has(0), s5.slots) == First(CleanIdle, s5.slots) == 1;
    assert Apply(s5, b[0]) == Reserved(s5, 0, 2, 1);
    assert Store(disk, 1, d) == saved;
    assert Apply(s5, b[0]) == s6;
    assert Apply(s6, b[1]) == s7;
    assert Apply(s7, b[2]) == s8;
    assert Fits(Has(0), s8.slots[0]);
    assert First(Has(3), s8.slots) == 1 && First(Has(0), s8.slots) == 0;
    assert Apply(s8, b[3]) == Reserved(s8, 0, 3, 3);
    assert Apply(s8, b[3]) == s9;
    Unfold(s5, b);
    Unfold(s6, b[1..]);
    Unfold(s7, b[2..]);
    Unfold(s8, b[3..]);
  }

  lemma Unfold<D>(s: State<D>, steps: seq<Step<D>>)
    requires steps != []
    ensures Run(s, steps) == Run(Apply(s, steps[0]), steps[1..])
    ensures Allowed(s, steps[0]) && AllAllowed(Apply(s, steps[0]), steps[1..]) ==> AllAllowed(s, steps)
  {
  }
}
