/**
  The to-do lists of creatures and the queue of wakeups, as values.

  A creature owns a list of actions.  Starting the list locks it and queues a
  wakeup; running the due wakeups executes the lists.  Entries that have become
  stale stay in the queue.  What an action does to any creature's list is not
  fixed here: it may be any sequence of the operations of `Op`.
*/
module SchedulerModel {
  import opened Common
  import opened Heaps

  /** Unsigned 32-bit arithmetic. */
  function Wrap(i: int): (r: nat)
    ensures r < TWO_TO_32
    ensures 0 <= i < TWO_TO_32 ==> r == i
  {
    i % TWO_TO_32
  }

  /** An entry of a to-do list, as far as its delay is concerned. */
  datatype Todo =
    | Wait(time: nat)
    | Go
    | Use(second: bool)
    | Attack
    | Other

  /** `todo` holds the entries below NrToDo; `act` is ActToDo. */
  datatype Creature = Creature(
    todo: seq<Todo>,
    act: nat,
    lock: bool,
    stop: bool,
    dead: bool,
    nextWakeup: nat,
    earliestWalk: nat,
    earliestMultiuse: nat,
    earliestAttack: nat,
    earliestSpell: nat)

  datatype World = World(now: nat, creatures: map<nat, Creature>, queue: multiset<Entry>)

  // ------------------------------------------------------- delays

  function Later(time: nat, now: nat): nat {
    if time > now then time - now else 0
  }

  function Max(a: nat, b: nat): nat {
    if a < b then b else a
  }

  function CalculateDelay(c: Creature, now: nat): (r: nat)
    requires c.act < |c.todo|
  {
    match c.todo[c.act]
    case Wait(time) => Later(Max(time, c.earliestWalk), now)
    case Go => Later(c.earliestWalk, now)
    case Use(second) => if second then Later(c.earliestMultiuse, now) else 0
    case Attack => Later(Max(c.earliestAttack, c.earliestSpell), now)
    case Other => 0
  }

  /** Whether the time of the next entry has come. */
  predicate MayRun(c: Creature, now: nat)
    requires c.act < |c.todo|
  {
    match c.todo[c.act]
    case Wait(time) => time <= now && c.earliestWalk <= now
    case Go => c.earliestWalk <= now
    case Use(second) => second ==> c.earliestMultiuse <= now
    case Attack => c.earliestAttack <= now && c.earliestSpell <= now
    case Other => true
  }

  /** `time` is the time of the next entry, which has one. */
  predicate IsTime(time: nat, c: Creature)
    requires c.act < |c.todo|
  {
    match c.todo[c.act]
    case Wait(t) => t <= time && c.earliestWalk <= time && time in {t, c.earliestWalk}
    case Go => time == c.earliestWalk
    case Use(second) => second && time == c.earliestMultiuse
    case Attack => c.earliestAttack <= time && c.earliestSpell <= time && time in {c.earliestAttack, c.earliestSpell}
    case Other => false
  }

  /** The delay is what is missing until the time of the entry. */
  lemma DelayIsRest(c: Creature, now: nat)
    requires c.act < |c.todo|
    ensures CalculateDelay(c, now) == 0 <==> MayRun(c, now)
    ensures !MayRun(c, now) ==> IsTime(now + CalculateDelay(c, now), c)
  {
  }

  lemma DelayIgnoresLock(c: Creature, now: nat)
    requires c.todo != []
    ensures CalculateDelay(c.(lock := true, act := 0), now) == CalculateDelay(c.(act := 0), now)
  {
  }

  // ------------------------------------------------------- operations

  function Clear(c: Creature): Creature {
    c.(todo := [], act := 0, lock := false, stop := false)
  }

  function Add(c: Creature, td: Todo): Creature {
    var d := if c.lock then Clear(c) else c;
    d.(todo := d.todo + [td])
  }

  function StopList(c: Creature): Creature {
    if c.lock then c.(stop := true) else c
  }

  /** The wakeup of a list that is started now. */
  function StartTime(c: Creature, now: nat): nat
    requires c.todo != []
  {
    var delay := CalculateDelay(c.(act := 0), now);
    Wrap(now + (if delay < 1 then 1 else delay))
  }

  function Start(w: World, id: nat): World
    requires id in w.creatures
  {
    var c := w.creatures[id];
    if c.todo == [] then w
    else
      var time := StartTime(c, w.now);
      w.(creatures := w.creatures[id := c.(lock := true, act := 0, nextWakeup := time)],
         queue := w.queue + multiset{Entry(time, id)})
  }

  lemma StartShape(w: World, id: nat)
    requires id in w.creatures && w.creatures[id].todo != []
    ensures var c := w.creatures[id].(lock := true, act := 0);
      var delay := CalculateDelay(c, w.now);
      var time := Wrap(w.now + if delay < 1 then 1 else delay);
      Start(w, id) == World(w.now, w.creatures[id := c.(nextWakeup := time)], w.queue + multiset{Entry(time, id)})
  {
    DelayIgnoresLock(w.creatures[id], w.now);
  }

  function Put(w: World, id: nat, c: Creature): World {
    w.(creatures := w.creatures[id := c])
  }

  function AddWait(w: World, id: nat, time: nat): World
    requires id in w.creatures
  {
    Put(w, id, Add(w.creatures[id], Wait(time)))
  }

  function Yield(w: World, id: nat): World
    requires id in w.creatures
  {
    if w.creatures[id].lock then w else Start(AddWait(w, id, Wrap(w.now)), id)
  }

  /** The list of `c` has been started: it is locked and rewound, and a wakeup is queued for
      the time of its first entry, or for the next millisecond when that has come. */
  ghost predicate IsStarted(w: World, v: World, id: nat, c: Creature)
    requires c.todo != []
  {
    var d := c.(lock := true, act := 0);
    && id in v.creatures
    && var time := v.creatures[id].nextWakeup;
       && v == World(w.now, w.creatures[id := d.(nextWakeup := time)], w.queue + multiset{Entry(time, id)})
       && if MayRun(d, w.now) then time == Wrap(w.now + 1)
          else exists t: nat :: w.now < t && IsTime(t, d) && time == Wrap(t)
  }

  lemma StartIsStarted(w: World, id: nat)
    requires id in w.creatures && w.creatures[id].todo != []
    ensures IsStarted(w, Start(w, id), id, w.creatures[id])
  {
    hide CalculateDelay, MayRun, IsTime;
    var d := w.creatures[id].(lock := true, act := 0);
    StartShape(w, id);
    DelayIsRest(d, w.now);
    if !MayRun(d, w.now) {
      assert IsTime(w.now + CalculateDelay(d, w.now), d);
    }
  }

  /** Starting a list that has just been filled. */
  lemma StartAfterPut(w: World, id: nat, c: Creature)
    requires c.todo != []
    ensures IsStarted(w, Start(Put(w, id, c), id), id, c)
  {
    hide Start, MayRun, IsTime;
    StartIsStarted(Put(w, id, c), id);
    var d := Start(Put(w, id, c), id).creatures[id];
    assert Put(w, id, c).creatures[id := d] == w.creatures[id := d];
  }

  lemma YieldIsStarted(w: World, id: nat)
    requires id in w.creatures && !w.creatures[id].lock
    ensures var c := w.creatures[id];
      IsStarted(w, Yield(w, id), id, c.(todo := c.todo + [Wait(Wrap(w.now))]))
  {
    hide Start, IsStarted;
    var c := w.creatures[id];
    StartAfterPut(w, id, c.(todo := c.todo + [Wait(Wrap(w.now))]));
  }

  /** What an action, a stimulus or a client may do to a creature. */
  datatype Op =
    | OpClear(id: nat)
    | OpAdd(id: nat, td: Todo)
    | OpStart(id: nat)
    | OpStop(id: nat)
    | OpYield(id: nat)
    | OpKill(id: nat)
    | OpCreate(id: nat)
    | OpSetTimes(id: nat, walk: nat, multiuse: nat, attack: nat, spell: nat)

  const NEW_CREATURE := Creature([], 0, false, false, false, 0, 0, 0, 0, 0)

  function Do(w: World, op: Op): World {
    if op.OpCreate? then if op.id in w.creatures then w else Put(w, op.id, NEW_CREATURE)
    else if op.id !in w.creatures then w
    else
      var c := w.creatures[op.id];
      match op
      case OpClear(id) => Put(w, id, Clear(c))
      case OpAdd(id, td) => Put(w, id, Add(c, td))
      case OpStart(id) => Start(w, id)
      case OpStop(id) => Put(w, id, StopList(c))
      case OpYield(id) => Yield(w, id)
      case OpKill(id) => Put(w, id, c.(dead := true))
      case OpSetTimes(id, walk, multiuse, attack, spell) =>
        Put(w, id, c.(earliestWalk := walk, earliestMultiuse := multiuse,
                      earliestAttack := attack, earliestSpell := spell))
  }

  /** The creature after an operation that queues nothing. */
  function Changed(c: Creature, op: Op): Creature {
    match op
    case OpClear(_) => c.(todo := [], act := 0, lock := false, stop := false)
    case OpAdd(_, td) =>
      if c.lock then c.(todo := [td], act := 0, lock := false, stop := false) else c.(todo := c.todo + [td])
    case OpStop(_) => c.(stop := c.stop || c.lock)
    case OpKill(_) => c.(dead := true)
    case OpSetTimes(_, walk, multiuse, attack, spell) =>
      c.(earliestWalk := walk, earliestMultiuse := multiuse, earliestAttack := attack, earliestSpell := spell)
    case _ => c
  }

  /** What an operation does to the creature it is about; it leaves all others alone. */
  lemma DoByKind(w: World, op: Op)
    requires op.id in w.creatures
    ensures var c, v := w.creatures[op.id], Do(w, op);
      && v.now == w.now && v.creatures.Keys == w.creatures.Keys
      && (forall id :: id in w.creatures && id != op.id ==> v.creatures[id] == w.creatures[id])
      && (op.OpStart? ==> if c.todo == [] then v == w else IsStarted(w, v, op.id, c))
      && (op.OpYield? ==> if c.lock then v == w else IsStarted(w, v, op.id, c.(todo := c.todo + [Wait(Wrap(w.now))])))
      && (!op.OpStart? && !op.OpYield? ==> v.queue == w.queue && v.creatures[op.id] == Changed(c, op))
  {
    hide IsStarted, CalculateDelay;
    var c := w.creatures[op.id];
    if op.OpStart? && c.todo != [] {
      StartIsStarted(w, op.id);
    }
    if op.OpYield? && !c.lock {
      YieldIsStarted(w, op.id);
    }
    assert op.OpAdd? ==> [] + [op.td] == [op.td];
  }

  function DoAll(w: World, ops: seq<Op>): World
    decreases |ops|
  {
    if ops == [] then w else DoAll(Do(w, ops[0]), ops[1..])
  }

  // ------------------------------------------------------- no lost wakeup

  /** A creature that will be woken, or need not be. */
  ghost predicate Safe(w: World, id: nat)
    requires id in w.creatures
  {
    var c := w.creatures[id];
    c.lock && !c.dead ==> Entry(c.nextWakeup, id) in w.queue
  }

  /** Every creature but `busy` is safe. */
  ghost predicate NoLostWakeup(w: World, busy: set<nat>) {
    forall id :: id in w.creatures && id !in busy ==> Safe(w, id)
  }

  /** Nobody touched the list of `c` so as to unlock or restart it. */
  predicate Calm(c: Creature, d: Creature) {
    d.todo == c.todo && d.act == c.act && d.lock == c.lock && d.nextWakeup == c.nextWakeup
  }

  /** The list of `id` does not run on: it is unlocked or its wakeup is queued for later. */
  ghost predicate Parked(w: World, id: nat)
    requires id in w.creatures
  {
    var c := w.creatures[id];
    !c.lock || (w.now < c.nextWakeup && Entry(c.nextWakeup, id) in w.queue)
  }

  /** The clock does not wrap: the next millisecond exists. */
  predicate ClockFits(w: World) {
    w.now < TWO_TO_32 - 1
  }

  /** The creature that an operation is about stays safe. */
  lemma DoSafe(w: World, op: Op)
    requires op.id in w.creatures && Safe(w, op.id)
    ensures op.id in Do(w, op).creatures && Safe(Do(w, op), op.id)
  {
    hide CalculateDelay;
  }

  /** Everything that `Do` keeps, whoever is busy. */
  lemma DoKeeps(w: World, op: Op, busy: set<nat>)
    requires NoLostWakeup(w, busy)
    ensures NoLostWakeup(Do(w, op), busy)
    ensures Do(w, op).now == w.now && w.creatures.Keys <= Do(w, op).creatures.Keys
    ensures w.queue <= Do(w, op).queue
  {
    var v := Do(w, op);
    forall id | id in v.creatures && id !in busy ensures Safe(v, id) {
      if id in w.creatures {
        assert Safe(w, id);
        if id == op.id {
          DoSafe(w, op);
        }
      }
    }
  }

  /** A started list is woken after now, but no later than it has to wait. */
  lemma StartIsLater(c: Creature, now: nat)
    requires c.todo != [] && now < TWO_TO_32 - 1 && TimesFit(c)
    ensures now < StartTime(c, now) < TWO_TO_32
    ensures StartTime(c, now) == now + Max(1, CalculateDelay(c.(act := 0), now))
  {
  }

  /** All times of a creature are 32-bit values. */
  ghost predicate TimesFit(c: Creature) {
    && c.earliestWalk < TWO_TO_32 && c.earliestMultiuse < TWO_TO_32 && c.earliestAttack < TWO_TO_32 && c.earliestSpell < TWO_TO_32
    && (forall i :: 0 <= i < |c.todo| && c.todo[i].Wait? ==> c.todo[i].time < TWO_TO_32)
  }

  ghost predicate OpFits(op: Op) {
    match op
    case OpAdd(_, td) => td.Wait? ==> td.time < TWO_TO_32
    case OpSetTimes(_, walk, multiuse, attack, spell) =>
      walk < TWO_TO_32 && multiuse < TWO_TO_32 && attack < TWO_TO_32 && spell < TWO_TO_32
    case _ => true
  }

  ghost predicate AllFit(w: World) {
    forall id :: id in w.creatures ==> TimesFit(w.creatures[id])
  }

  lemma DoFits(w: World, op: Op)
    requires AllFit(w) && OpFits(op)
    ensures AllFit(Do(w, op))
  {
  }

  /** After an operation the list of `x` is as before or parked. */
  lemma DoParks(w: World, op: Op, x: nat)
    requires x in w.creatures && ClockFits(w) && AllFit(w)
    ensures x in Do(w, op).creatures
    ensures Calm(w.creatures[x], Do(w, op).creatures[x]) || Parked(Do(w, op), x)
    ensures Parked(w, x) ==> Parked(Do(w, op), x)
  {
    var c := if op.id in w.creatures then w.creatures[op.id] else NEW_CREATURE;
    if c.todo != [] {
      StartIsLater(c, w.now);
    }
    if op.OpYield? && op.id in w.creatures && !c.lock {
      StartIsLater(Add(c, Wait(Wrap(w.now))), w.now);
    }
  }

  /** What an operation adds to the queue lies in the future. */
  lemma DoQueuesLater(w: World, op: Op)
    requires ClockFits(w) && AllFit(w)
    ensures OnlyLater(w, Do(w, op))
  {
    var c := if op.id in w.creatures then w.creatures[op.id] else NEW_CREATURE;
    if c.todo != [] {
      StartIsLater(c, w.now);
    }
    if op.OpYield? && op.id in w.creatures && !c.lock {
      StartIsLater(Add(c, Wait(Wrap(w.now))), w.now);
    }
  }

  /** The queue grew, but not by entries that are due. */
  ghost predicate OnlyLater(w: World, v: World) {
    v.now == w.now && w.queue <= v.queue && forall e: Entry :: e.key <= w.now ==> v.queue[e] == w.queue[e]
  }

  lemma LaterTransitive(w: World, v: World, u: World)
    requires OnlyLater(w, v) && OnlyLater(v, u)
    ensures OnlyLater(w, u)
  {
  }

  /** A world between two wakeups. */
  ghost predicate Ready(w: World, busy: set<nat>) {
    NoLostWakeup(w, busy) && ClockFits(w) && AllFit(w)
  }

  lemma OneKeeps(w: World, op: Op, busy: set<nat>)
    requires Ready(w, busy) && OpFits(op)
    ensures Ready(Do(w, op), busy) && OnlyLater(w, Do(w, op)) && w.creatures.Keys <= Do(w, op).creatures.Keys
  {
    hide Do;
    DoKeeps(w, op, busy);
    DoFits(w, op);
    DoQueuesLater(w, op);
  }

  /** Any sequence of operations. */
  lemma {:induction false} DoAllKeeps(w: World, ops: seq<Op>, busy: set<nat>)
    requires Ready(w, busy) && forall op :: op in ops ==> OpFits(op)
    ensures var v := DoAll(w, ops);
      Ready(v, busy) && OnlyLater(w, v) && w.creatures.Keys <= v.creatures.Keys
    decreases |ops|
  {
    if ops != [] {
      assert ops[0] in ops && forall op :: op in ops[1..] ==> op in ops;
      OneKeeps(w, ops[0], busy);
      DoAllKeeps(Do(w, ops[0]), ops[1..], busy);
    }
  }

  lemma {:induction false} DoAllParks(w: World, ops: seq<Op>, x: nat)
    requires Ready(w, {x}) && x in w.creatures && forall op :: op in ops ==> OpFits(op)
    ensures x in DoAll(w, ops).creatures
    ensures Calm(w.creatures[x], DoAll(w, ops).creatures[x]) || Parked(DoAll(w, ops), x)
    ensures Parked(w, x) ==> Parked(DoAll(w, ops), x)
    decreases |ops|
  {
    if ops != [] {
      assert ops[0] in ops && forall op :: op in ops[1..] ==> op in ops;
      DoKeeps(w, ops[0], {x});
      DoFits(w, ops[0]);
      DoParks(w, ops[0], x);
      DoAllParks(Do(w, ops[0]), ops[1..], x);
    }
  }

  /** The due entries of a queue. */
  ghost function Due(q: multiset<Entry>, now: nat): (r: multiset<Entry>)
    ensures forall e :: r[e] == if e.key <= now then q[e] else 0
    decreases |q|
  {
    if q == multiset{} then multiset{}
    else
      var e :| e in q;
      Due(q - multiset{e}, now) + (if e.key <= now then multiset{e} else multiset{})
  }

  // ------------------------------------------------------- executing a list

  /** A creature will be woken at `time`. */
  function Awaiting(w: World, id: nat, time: nat): World
    requires id in w.creatures
  {
    World(w.now, w.creatures[id := w.creatures[id].(nextWakeup := time)], w.queue + multiset{Entry(time, id)})
  }

  /** A creature whose next entry has to wait is woken when its time comes. */
  lemma PostponeKeeps(w: World, id: nat)
    requires Ready(w, {id}) && id in w.creatures && w.creatures[id].act < |w.creatures[id].todo|
    requires CalculateDelay(w.creatures[id], w.now) > 0
    ensures var time := w.now + CalculateDelay(w.creatures[id], w.now);
      var v := Awaiting(w, id, time);
      && Wrap(time) == time && IsTime(time, w.creatures[id])
      && Ready(v, {}) && OnlyLater(w, v) && w.creatures.Keys <= v.creatures.Keys
  {
    var v := Awaiting(w, id, w.now + CalculateDelay(w.creatures[id], w.now));
    assert TimesFit(w.creatures[id]);
    DelayIsRest(w.creatures[id], w.now);
    forall x | x in v.creatures ensures Safe(v, x) {
      if x != id {
        assert Safe(w, x);
      }
    }
  }

  /** Changing a creature so that it is safe, or stays the busy one. */
  lemma PutKeeps(w: World, id: nat, c: Creature, busy: set<nat>)
    requires Ready(w, {id}) && TimesFit(c) && (id in busy || !c.lock)
    ensures Ready(Put(w, id, c), busy) && OnlyLater(w, Put(w, id, c))
  {
    var v := Put(w, id, c);
    forall x | x in v.creatures && x !in busy ensures Safe(v, x) {
      if x != id {
        assert Safe(w, x);
      }
    }
  }

  lemma ClearKeeps(w: World, id: nat)
    requires Ready(w, {id}) && id in w.creatures
    ensures var v := Put(w, id, Clear(w.creatures[id]));
      Ready(v, {}) && OnlyLater(w, v) && w.creatures.Keys <= v.creatures.Keys
  {
    assert TimesFit(w.creatures[id]);
    PutKeeps(w, id, Clear(w.creatures[id]), {});
  }

  /** After a failed action: the list is cleared and restarted with a wait. */
  function AfterFailure(w: World, id: nat, exhausted: bool): World
    requires id in w.creatures
  {
    var v := Put(w, id, Clear(w.creatures[id]));
    if exhausted then Start(AddWait(v, id, Wrap(w.now + 1000)), id) else Yield(v, id)
  }

  /** A failed action leaves nothing but a wait behind, of no time or of a second. */
  lemma AfterFailureIsWait(w: World, id: nat, exhausted: bool)
    requires id in w.creatures
    ensures IsStarted(w, AfterFailure(w, id, exhausted), id, OnlyWaiting(w, id, exhausted))
  {
    hide Start, IsStarted;
    StartAfterPut(w, id, OnlyWaiting(w, id, exhausted));
    var v := Put(w, id, Clear(w.creatures[id]));
    assert [] + [Wait(Wrap(w.now + if exhausted then 1000 else 0))] == [Wait(Wrap(w.now + if exhausted then 1000 else 0))];
    assert AddWait(v, id, Wrap(w.now + if exhausted then 1000 else 0)) == Put(w, id, OnlyWaiting(w, id, exhausted));
  }

  function OnlyWaiting(w: World, id: nat, exhausted: bool): (c: Creature)
    requires id in w.creatures
    ensures c.todo == [Wait(Wrap(w.now + if exhausted then 1000 else 0))] && !c.stop
  {
    w.creatures[id].(todo := [Wait(Wrap(w.now + if exhausted then 1000 else 0))], act := 0, lock := false, stop := false)
  }

  lemma AfterFailureKeeps(w: World, id: nat, exhausted: bool)
    requires Ready(w, {id}) && id in w.creatures
    ensures var v := AfterFailure(w, id, exhausted);
      Ready(v, {}) && OnlyLater(w, v) && w.creatures.Keys <= v.creatures.Keys
  {
    hide Ready, OnlyLater;
    ClearKeeps(w, id);
    var v := Put(w, id, Clear(w.creatures[id]));
    if exhausted {
      var add := OpAdd(id, Wait(Wrap(w.now + 1000)));
      var u := AddWait(v, id, Wrap(w.now + 1000));
      assert u == Do(v, add);
      OneKeeps(v, add, {});
      OneKeeps(u, OpStart(id), {});
      LaterTransitive(w, v, u);
      LaterTransitive(w, u, Start(u, id));
    } else {
      OneKeeps(v, OpYield(id), {});
      LaterTransitive(w, v, Yield(v, id));
    }
  }

  /** Moving on to the next entry keeps the creature busy. */
  lemma NextKeeps(w: World, id: nat)
    requires Ready(w, {id}) && id in w.creatures
    ensures var v := Put(w, id, w.creatures[id].(act := w.creatures[id].act + 1));
      Ready(v, {id}) && OnlyLater(w, v) && w.creatures.Keys <= v.creatures.Keys
  {
    assert TimesFit(w.creatures[id]);
    PutKeeps(w, id, w.creatures[id].(act := w.creatures[id].act + 1), {id});
  }

  /** A busy creature that is safe is like all others. */
  lemma SafeIsReady(w: World, id: nat)
    requires Ready(w, {id}) && (id in w.creatures ==> Safe(w, id))
    ensures Ready(w, {})
  {
  }

  /** How far the list of `id` is: `n` entries after `c`, or not running any more. */
  ghost predicate Progress(w0: World, w: World, id: nat, n: nat)
    requires id in w0.creatures && id in w.creatures
  {
    var c, d := w0.creatures[id], w.creatures[id];
    Parked(w, id) || Calm(c.(act := c.act + n), d)
  }

  /** An action that runs while the list of `id` is busy. */
  lemma ActionProgress(w0: World, w: World, id: nat, n: nat, ops: seq<Op>)
    requires id in w0.creatures && Ready(w, {id}) && id in w.creatures && Progress(w0, w, id, n)
    requires forall op :: op in ops ==> OpFits(op)
    ensures var v := DoAll(w, ops);
      && Ready(v, {id}) && OnlyLater(w, v) && id in v.creatures && w.creatures.Keys <= v.creatures.Keys
      && Progress(w0, v, id, n)
  {
    hide DoAll;
    DoAllKeeps(w, ops, {id});
    DoAllParks(w, ops, id);
  }

  // ------------------------------------------------------- one turn, and many

  datatype Outcome = Finished | Exhausted | Failed

  /** What one action does to the lists of creatures, and how it ends. */
  datatype Effect = Effect(ops: seq<Op>, outcome: Outcome)

  /** The world when so many actions and idle stimuli have run. */
  datatype Moment = Moment(w: World, step: nat)

  /** Whether the list of a creature runs on now. */
  predicate RunsOn(w: World, id: nat)
    requires id in w.creatures
  {
    w.creatures[id].lock && !w.creatures[id].dead && w.creatures[id].nextWakeup <= w.now
  }

  /** How a turn ends that has performed an action: the world was `u` then and is `v` now. */
  ghost predicate Ends(u: World, v: World, id: nat, outcome: Outcome, goOn: bool) {
    && id in u.creatures
    && match outcome
       case Finished => (goOn <==> !u.creatures[id].stop) && v == if goOn then u else Put(u, id, Clear(u.creatures[id]))
       case _ => !goOn && IsStarted(u, v, id, OnlyWaiting(u, id, outcome == Exhausted))
  }

  /**
    One turn of the loop that runs a list.  A list that is used up is cleared and its
    creature gets an idle stimulus.  An entry whose time has not come is waited for, or
    the list is cleared when a stop was asked for.  Any other entry is performed.
  */
  ghost predicate IsTurn(effects: nat -> Effect, id: nat, a: Moment, b: Moment, executed: seq<Todo>, goOn: bool)
    requires id in a.w.creatures
  {
    var c := a.w.creatures[id];
    if c.act >= |c.todo| then
      && executed == [] && !goOn && b.step == a.step + 1
      && b.w == DoAll(Put(a.w, id, Clear(c)), effects(a.step).ops)
    else if !MayRun(c, a.w.now) then
      && executed == [] && !goOn && b.step == a.step
      && (c.stop ==> b.w == Put(a.w, id, Clear(c)))
      && (!c.stop ==> exists time :: IsTime(time, c) && b.w == Awaiting(a.w, id, time))
    else
      var v := Put(a.w, id, c.(act := c.act + 1));
      && executed == [c.todo[c.act]]
      && if c.todo[c.act].Wait? then b.step == a.step && Ends(v, b.w, id, Finished, goOn)
         else
           && b.step == a.step + 1
           && Ends(DoAll(v, effects(a.step).ops), b.w, id, effects(a.step).outcome, goOn)
  }

  /** What turn `k` of an execution has performed. */
  function Performed(executed: seq<Todo>, k: nat): seq<Todo> {
    if k < |executed| then [executed[k]] else []
  }

  /**
    The turns in which a list is executed, from `moments[0]` on.  Each but the last
    performs an entry and goes on; with `goOn` so does the last.
  */
  ghost predicate IsExecution(effects: nat -> Effect, id: nat, moments: seq<Moment>, executed: seq<Todo>, goOn: bool) {
    && |moments| > 0 && |moments| - 2 <= |executed| < |moments| && (if goOn then |executed| == |moments| - 1 else |moments| > 1)
    && (forall k :: 0 <= k < |moments| ==> id in moments[k].w.creatures)
    && (forall k :: 0 <= k < |moments| - 1 ==>
          && RunsOn(moments[k].w, id)
          && IsTurn(effects, id, moments[k], moments[k + 1], Performed(executed, k), k < |moments| - 2 || goOn))
  }

  lemma OneMoreTurn(effects: nat -> Effect, id: nat, moments: seq<Moment>, executed: seq<Todo>,
                    b: Moment, more: seq<Todo>, goOn: bool)
    requires IsExecution(effects, id, moments, executed, true) && id in b.w.creatures
    requires RunsOn(moments[|moments| - 1].w, id) && IsTurn(effects, id, moments[|moments| - 1], b, more, goOn)
    ensures IsExecution(effects, id, moments + [b], executed + more, goOn)
  {
    hide IsTurn;
    assert |more| <= 1 && (goOn ==> |more| == 1) by { TurnPerforms(effects, id, moments[|moments| - 1], b, more, goOn); }
    var n := |moments| - 1;
    forall k | 0 <= k < n + 1
      ensures IsTurn(effects, id, (moments + [b])[k], (moments + [b])[k + 1], Performed(executed + more, k), k < n || goOn)
    {
      if k < n {
        assert Performed(executed + more, k) == Performed(executed, k);
      } else {
        assert Performed(executed + more, k) == more;
      }
    }
  }

  lemma TurnPerforms(effects: nat -> Effect, id: nat, a: Moment, b: Moment, executed: seq<Todo>, goOn: bool)
    requires id in a.w.creatures && IsTurn(effects, id, a, b, executed, goOn)
    ensures |executed| <= 1 && (goOn ==> |executed| == 1)
    ensures var c := a.w.creatures[id]; executed == [] || (c.act < |c.todo| && executed == [c.todo[c.act]])
  {
  }

  /** The whole execution: it ends when a turn says so or the list does not run on. */
  ghost predicate Executes(effects: nat -> Effect, id: nat, a: Moment, b: Moment, executed: seq<Todo>) {
    exists moments, goOn ::
      && IsExecution(effects, id, moments, executed, goOn)
      && moments[0] == a && moments[|moments| - 1] == b && (goOn ==> !RunsOn(b.w, id))
  }

  /** What serving a due entry of the queue does: the list of its creature is executed, if there is one. */
  ghost predicate Serves(effects: nat -> Effect, a: Moment, b: Moment, e: Entry, executed: seq<Todo>) {
    var v := a.w.(queue := a.w.queue - multiset{e});
    && e in a.w.queue
    && if e.data in v.creatures then Executes(effects, e.data, Moment(v, a.step), b, executed)
       else executed == [] && b == Moment(v, a.step)
  }

  // ------------------------------------------------------- lists that nobody disturbs

  /** An action that ends well and leaves the list of `id` alone, apart from its times. */
  ghost predicate Quiet(effect: Effect, id: nat) {
    effect.outcome == Finished && forall op :: op in effect.ops && op.id == id ==> op.OpSetTimes?
  }

  /** The same list, perhaps with other times. */
  predicate SameList(c: Creature, d: Creature) {
    d.todo == c.todo && d.act == c.act && d.lock == c.lock && d.stop == c.stop && d.dead == c.dead && d.nextWakeup == c.nextWakeup
  }

  lemma {:induction false} QuietOps(w: World, ops: seq<Op>, id: nat)
    requires id in w.creatures && forall op :: op in ops && op.id == id ==> op.OpSetTimes?
    ensures var v := DoAll(w, ops);
      v.now == w.now && id in v.creatures && SameList(w.creatures[id], v.creatures[id])
    decreases |ops|
  {
    if ops != [] {
      assert ops[0] in ops && forall op :: op in ops[1..] ==> op in ops;
      QuietOp(w, ops[0], id);
      QuietOps(Do(w, ops[0]), ops[1..], id);
    }
  }

  lemma QuietOp(w: World, op: Op, id: nat)
    requires id in w.creatures && (op.id == id ==> op.OpSetTimes?)
    ensures var v := Do(w, op);
      v.now == w.now && id in v.creatures && SameList(w.creatures[id], v.creatures[id])
  {
  }

  /** A quiet turn of a running list performs its next entry and goes on, or the
      entry has to wait, or the list is used up. */
  lemma QuietTurn(effects: nat -> Effect, id: nat, a: Moment, b: Moment, executed: seq<Todo>, goOn: bool)
    requires id in a.w.creatures && RunsOn(a.w, id) && !a.w.creatures[id].stop && Quiet(effects(a.step), id)
    requires IsTurn(effects, id, a, b, executed, goOn)
    ensures id in b.w.creatures && b.w.now == a.w.now && a.step <= b.step <= a.step + 1
    ensures var c, d := a.w.creatures[id], b.w.creatures[id];
      if c.act >= |c.todo| then executed == [] && !goOn && d.todo == [] && !d.lock
      else if !MayRun(c, a.w.now) then
        && executed == [] && !goOn && d == c.(nextWakeup := d.nextWakeup)
        && IsTime(d.nextWakeup, c) && Entry(d.nextWakeup, id) in b.w.queue
      else executed == [c.todo[c.act]] && goOn && SameList(c.(act := c.act + 1), d)
  {
    hide DoAll, MayRun, IsTime;
    var c := a.w.creatures[id];
    if c.act >= |c.todo| {
      QuietOps(Put(a.w, id, Clear(c)), effects(a.step).ops, id);
    } else if MayRun(c, a.w.now) {
      QuietOps(Put(a.w, id, c.(act := c.act + 1)), effects(a.step).ops, id);
    }
  }

  /** How far a quiet execution is after `k` turns. */
  lemma {:induction false} QuietTurns(effects: nat -> Effect, id: nat, moments: seq<Moment>, executed: seq<Todo>,
                                      goOn: bool, k: nat)
    requires IsExecution(effects, id, moments, executed, goOn) && k < |moments| && (k == |moments| - 1 ==> goOn)
    requires var c := moments[0].w.creatures[id];
      && !c.stop && c.act <= |c.todo|
      && (forall i: nat :: moments[0].step <= i <= moments[0].step + |c.todo| ==> Quiet(effects(i), id))
    ensures var c, d := moments[0].w.creatures[id], moments[k].w.creatures[id];
      && k <= |executed| && c.act + k <= |c.todo| && executed[..k] == c.todo[c.act..c.act + k]
      && SameList(c.(act := c.act + k), d) && moments[k].w.now == moments[0].w.now
      && moments[0].step <= moments[k].step <= moments[0].step + k
  {
    hide IsTurn, MayRun, IsTime, Quiet;
    if k > 0 {
      QuietTurns(effects, id, moments, executed, goOn, k - 1);
      assert IsTurn(effects, id, moments[k - 1], moments[k - 1 + 1], Performed(executed, k - 1), true);
      QuietTurn(effects, id, moments[k - 1], moments[k], Performed(executed, k - 1), true);
      assert executed[..k] == executed[..k - 1] + [executed[k - 1]];
    }
  }

  /**
    A list that nobody disturbs is executed up to the first entry whose time has not
    come, for which its creature is woken again, or to its end, and then it is cleared.
  */
  lemma QuietExecution(effects: nat -> Effect, id: nat, a: Moment, b: Moment, executed: seq<Todo>)
    requires Executes(effects, id, a, b, executed) && id in a.w.creatures && RunsOn(a.w, id)
    requires var c := a.w.creatures[id];
      && !c.stop && c.act <= |c.todo|
      && (forall i: nat :: a.step <= i <= a.step + |c.todo| ==> Quiet(effects(i), id))
    ensures id in b.w.creatures
    ensures var c, d, end := a.w.creatures[id], b.w.creatures[id], a.w.creatures[id].act + |executed|;
      && end <= |c.todo| && executed == c.todo[c.act..end]
      && if end < |c.todo| then
           && d.todo == c.todo && d.act == end && d.lock && !MayRun(d, b.w.now)
           && IsTime(d.nextWakeup, d) && Entry(d.nextWakeup, id) in b.w.queue
         else d.todo == [] && !d.lock
  {
    hide IsTurn, MayRun, IsTime, Quiet;
    var moments: seq<Moment>, goOn: bool :|
      && IsExecution(effects, id, moments, executed, goOn)
      && moments[0] == a && moments[|moments| - 1] == b && (goOn ==> !RunsOn(b.w, id));
    var last := |moments| - 1;
    if goOn {
      QuietTurns(effects, id, moments, executed, goOn, last);
      assert false;
    } else {
      QuietTurns(effects, id, moments, executed, goOn, last - 1);
      assert IsTurn(effects, id, moments[last - 1], moments[last - 1 + 1], Performed(executed, last - 1), false);
      QuietTurn(effects, id, moments[last - 1], b, Performed(executed, last - 1), false);
      assert executed == executed[..last - 1];
      if a.w.creatures[id].act + |executed| < |a.w.creatures[id].todo| {
        SameTimes(moments[last - 1].w.creatures[id], b.w.creatures[id], b.w.now);
      }
    }
  }

  /** The time of an entry does not depend on when its creature is woken. */
  lemma SameTimes(c: Creature, d: Creature, now: nat)
    requires d == c.(nextWakeup := d.nextWakeup) && c.act < |c.todo|
    ensures MayRun(d, now) <==> MayRun(c, now)
    ensures IsTime(d.nextWakeup, d) <==> IsTime(d.nextWakeup, c)
  {
  }

  // ------------------------------------------------------- draining the queue

  /** Taking a due entry off the queue leaves only its creature unattended. */
  lemma PopKeeps(w: World, e: Entry)
    requires Ready(w, {}) && e in w.queue && e.key <= w.now
    ensures var v := w.(queue := w.queue - multiset{e});
      && Ready(v, {e.data})
      && (e.data !in v.creatures ==> Ready(v, {}))
      && (e.data in v.creatures && v.now < v.creatures[e.data].nextWakeup ==> Safe(v, e.data))
  {
    var v := w.(queue := w.queue - multiset{e});
    forall id | id in v.creatures ensures id != e.data ==> Safe(v, id) {
      assert Safe(w, id);
    }
    if e.data in v.creatures {
      assert Safe(w, e.data);
    }
  }

  lemma DuePop(q: multiset<Entry>, e: Entry, now: nat)
    requires e in q && e.key <= now
    ensures e in Due(q, now) && Due(q - multiset{e}, now) == Due(q, now) - multiset{e}
  {
    hide Due;
    forall x ensures Due(q - multiset{e}, now)[x] == (Due(q, now) - multiset{e})[x] {
    }
  }

  lemma DueLater(w: World, v: World)
    requires OnlyLater(w, v)
    ensures Due(v.queue, w.now) == Due(w.queue, w.now)
  {
  }

  ghost predicate SortedByKey(s: seq<Entry>) {
    forall i, j :: 0 <= i < j < |s| ==> s[i].key <= s[j].key
  }

  /** The bookkeeping of a drain: what was processed and what is still due make up
      what was due at first, and the former comes in front of the latter. */
  ghost predicate Drained(processed: seq<Entry>, due: multiset<Entry>, all: multiset<Entry>) {
    && multiset(processed) + due == all
    && SortedByKey(processed)
    && (forall i, e :: 0 <= i < |processed| && e in due ==> processed[i].key <= e.key)
  }

  lemma DrainOne(processed: seq<Entry>, due: multiset<Entry>, all: multiset<Entry>, e: Entry)
    requires Drained(processed, due, all) && e in due && forall x :: x in due ==> e.key <= x.key
    ensures Drained(processed + [e], due - multiset{e}, all)
  {
  }
}
