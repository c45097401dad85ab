/**
  The scheduler on its real state: the clock, the creatures and the binary heap
  of wakeups.  Each method performs an operation of SchedulerModel; `Execute`
  and `MoveCreatures` state what holds of whole runs.
*/
module Scheduler {
  import opened Common
  import opened Heaps
  import opened PriorityQueues
  import opened SchedulerModel

  /** What happens to the scheduler from outside. */
  datatype Event = Command(op: Op) | Remove(id: nat) | Beat(delay: nat)

  function TotalDelay(events: seq<Event>): nat {
    if events == [] then 0
    else (if events[0].Beat? then events[0].delay else 0) + TotalDelay(events[1..])
  }

  lemma RemoveKeeps(w: World, id: nat)
    requires NoLostWakeup(w, {}) && AllFit(w)
    ensures var v := w.(creatures := w.creatures - {id}); NoLostWakeup(v, {}) && AllFit(v)
  {
    var v := w.(creatures := w.creatures - {id});
    forall x | x in v.creatures ensures Safe(v, x) {
      assert Safe(w, x);
    }
  }

  class Scheduler {
    var now: nat
    var creatures: map<nat, Creature>
    const queue: PriorityQueue
    // The effects of actions and idle stimuli, in the order in which they run.
    const effects: nat -> Effect
    var step: nat

    ghost predicate Valid()
      reads this, queue, queue.vec, queue.vec.entry
    {
      queue.Valid()
    }

    ghost function View(): World
      requires Valid()
      reads this, queue, queue.vec, queue.vec.entry
    {
      World(now, creatures, queue.Contents())
    }

    ghost function Now(): Moment
      requires Valid()
      reads this, queue, queue.vec, queue.vec.entry
    {
      Moment(View(), step)
    }

    ghost predicate EffectsFit() {
      forall k: nat, op :: op in effects(k).ops ==> OpFits(op)
    }

    constructor (effects: nat -> Effect)
      ensures Valid() && fresh(queue) && fresh(queue.vec) && fresh(queue.vec.entry)
      ensures this.effects == effects && View() == World(0, map[], multiset{})
    {
      this.effects := effects;
      queue := new PriorityQueue(5000, 1000);
      now, creatures, step := 0, map[], 0;
    }

    // ------------------------------------------------------- single operations

    /** Clears a list; says whether a step that was still to be made is lost. */
    method ToDoClear(id: nat) returns (snapback: bool)
      requires Valid() && id in creatures
      modifies this`creatures
      ensures Valid() && View() == Put(old(View()), id, Clear(old(creatures)[id]))
      ensures creatures == old(creatures)[id := old(creatures)[id].(todo := [], act := 0, lock := false, stop := false)]
      ensures snapback <==> exists i :: old(creatures)[id].act <= i < |old(creatures)[id].todo| && old(creatures)[id].todo[i].Go?
    {
      var c := creatures[id];
      snapback := false;
      for i := 0 to |c.todo|
        invariant snapback <==> exists k :: c.act <= k < i && c.todo[k].Go?
      {
        if c.todo[i].Go? && c.act <= i {
          snapback := true;
        }
      }
      creatures := creatures[id := c.(todo := [], act := 0, lock := false, stop := false)];
    }

    method ToDoAdd(id: nat, td: Todo)
      requires Valid() && id in creatures
      modifies this`creatures
      ensures Valid() && View() == Put(old(View()), id, Add(old(creatures)[id], td))
      ensures var c := old(creatures)[id];
        creatures == old(creatures)[id :=
          if c.lock then c.(todo := [td], act := 0, lock := false, stop := false) else c.(todo := c.todo + [td])]
    {
      if creatures[id].lock {
        var _ := ToDoClear(id);
      }
      var c := creatures[id];
      assert [] + [td] == [td];
      assert creatures[id := c.(todo := c.todo + [td])] == old(creatures)[id := c.(todo := c.todo + [td])];
      creatures := creatures[id := c.(todo := c.todo + [td])];
    }

    method ToDoStop(id: nat)
      requires Valid() && id in creatures
      modifies this`creatures
      ensures Valid() && View() == Put(old(View()), id, StopList(old(creatures)[id]))
      ensures var c := old(creatures)[id]; creatures == old(creatures)[id := c.(stop := c.stop || c.lock)]
    {
      if creatures[id].lock {
        creatures := creatures[id := creatures[id].(stop := true)];
      } else {
        assert creatures[id := creatures[id]] == creatures;
      }
    }

    /** Stores a creature and queues its next wakeup. */
    method Enqueue(id: nat, c: Creature)
      requires Valid()
      modifies this`creatures, queue, queue.vec, queue.vec.entry
      ensures Valid() && (queue.vec.entry == old(queue.vec.entry) || fresh(queue.vec.entry))
      ensures View() ==
        World(now, old(creatures)[id := c], old(View()).queue + multiset{Entry(c.nextWakeup, id)})
    {
      hide IsHeap, Inserted;
      queue.Insert(c.nextWakeup, id);
      creatures := creatures[id := c];
    }

    method ToDoStart(id: nat)
      requires Valid() && id in creatures
      modifies this`creatures, queue, queue.vec, queue.vec.entry
      ensures Valid() && (queue.vec.entry == old(queue.vec.entry) || fresh(queue.vec.entry))
      ensures View() == Start(old(View()), id)
      ensures old(creatures)[id].todo == [] ==> View() == old(View())
      ensures old(creatures)[id].todo != [] ==> IsStarted(old(View()), View(), id, old(creatures)[id])
    {
      hide IsHeap, CalculateDelay, Start, IsStarted;
      var c := creatures[id];
      if |c.todo| == 0 {
        StartNothing(View(), id);
      } else {
        StartShape(View(), id);
        StartIsStarted(View(), id);
        c := c.(lock := true, act := 0);
        var delay := CalculateDelay(c, now);
        if delay < 1 {
          delay := 1;
        }
        Enqueue(id, c.(nextWakeup := Wrap(now + delay)));
      }
    }

    method ToDoYield(id: nat)
      requires Valid() && id in creatures
      modifies this`creatures, queue, queue.vec, queue.vec.entry
      ensures Valid() && (queue.vec.entry == old(queue.vec.entry) || fresh(queue.vec.entry))
      ensures View() == Yield(old(View()), id)
      ensures var c := old(creatures)[id];
        if c.lock then View() == old(View())
        else IsStarted(old(View()), View(), id, c.(todo := c.todo + [Wait(Wrap(now))]))
    {
      hide IsStarted, Start;
      if !creatures[id].lock {
        YieldIsStarted(View(), id);
        ToDoAdd(id, Wait(Wrap(now)));
        ToDoStart(id);
      }
    }

    /** Performs what an action asks for. */
    method Perform(op: Op)
      requires Valid()
      modifies this`creatures, queue, queue.vec, queue.vec.entry
      ensures Valid() && (queue.vec.entry == old(queue.vec.entry) || fresh(queue.vec.entry))
      ensures View() == Do(old(View()), op)
    {
      if op.OpCreate? {
        if op.id !in creatures {
          creatures := creatures[op.id := NEW_CREATURE];
        }
      } else if op.id in creatures {
        var c := creatures[op.id];
        match op
        case OpClear(id) => var _ := ToDoClear(id);
        case OpAdd(id, td) => ToDoAdd(id, td);
        case OpStart(id) => ToDoStart(id);
        case OpStop(id) => ToDoStop(id);
        case OpYield(id) => ToDoYield(id);
        case OpKill(id) => creatures := creatures[id := c.(dead := true)];
        case OpSetTimes(id, walk, multiuse, attack, spell) =>
          creatures := creatures[id := c.(earliestWalk := walk, earliestMultiuse := multiuse,
                                          earliestAttack := attack, earliestSpell := spell)];
      }
    }

    method PerformAll(ops: seq<Op>)
      requires Valid()
      modifies this`creatures, queue, queue.vec, queue.vec.entry
      ensures Valid() && (queue.vec.entry == old(queue.vec.entry) || fresh(queue.vec.entry))
      ensures View() == DoAll(old(View()), ops)
    {
      for i := 0 to |ops|
        invariant Valid() && (queue.vec.entry == old(queue.vec.entry) || fresh(queue.vec.entry))
        invariant DoAll(View(), ops[i..]) == DoAll(old(View()), ops)
      {
        hide Do;
        assert ops[i..][0] == ops[i] && ops[i..][1..] == ops[i + 1..];
        Perform(ops[i]);
      }
    }

    // ------------------------------------------------------- executing lists

    /** Whether the list of a creature runs on now. */
    predicate Runs(id: nat)
      requires id in creatures
      reads this
    {
      creatures[id].lock && !creatures[id].dead && creatures[id].nextWakeup <= now
    }

    /** Takes the next entry of a list and performs it; says whether it ended well. */
    method Act(id: nat) returns (td: Todo, outcome: Outcome)
      requires Valid() && EffectsFit() && id in creatures && creatures[id].act < |creatures[id].todo|
      requires Ready(View(), {id}) && Runs(id)
      modifies this`creatures, this`step, queue, queue.vec, queue.vec.entry
      ensures Valid() && (queue.vec.entry == old(queue.vec.entry) || fresh(queue.vec.entry))
      ensures Ready(View(), {id}) && OnlyLater(old(View()), View()) && id in creatures
      ensures old(creatures).Keys <= creatures.Keys
      ensures td == old(creatures)[id].todo[old(creatures)[id].act]
      ensures Progress(old(View()), View(), id, 1)
      ensures var c := old(creatures)[id];
        var v := Put(old(View()), id, c.(act := c.act + 1));
        if td.Wait? then Now() == Moment(v, old(step)) && outcome == Finished
        else Now() == Moment(DoAll(v, effects(old(step)).ops), old(step) + 1) && outcome == effects(old(step)).outcome
    {
      hide Ready, OnlyLater, DoAll;
      var c := creatures[id];
      td := c.todo[c.act];
      NextKeeps(View(), id);
      creatures := creatures[id := c.(act := c.act + 1)];
      ghost var w := View();
      assert w == Put(old(View()), id, c.(act := c.act + 1));
      outcome := Finished;
      if !td.Wait? {
        var effect := effects(step);
        step := step + 1;
        ActionProgress(old(View()), w, id, 1, effect.ops);
        PerformAll(effect.ops);
        LaterTransitive(old(View()), w, View());
        outcome := effect.outcome;
      }
    }

    /** Clears the list of a busy creature. */
    method Abandon(id: nat, ghost w0: World)
      requires Valid() && id in creatures && Ready(View(), {id}) && OnlyLater(w0, View())
      modifies this`creatures
      ensures Valid() && Ready(View(), {}) && OnlyLater(w0, View()) && old(creatures).Keys <= creatures.Keys
      ensures View() == Put(old(View()), id, Clear(old(creatures)[id]))
    {
      hide Ready, OnlyLater;
      ghost var w := View();
      ClearKeeps(w, id);
      var _ := ToDoClear(id);
      LaterTransitive(w0, w, View());
    }

    /** Comes back when the next entry is due. */
    method Await(id: nat, delay: nat)
      requires Valid() && id in creatures && Ready(View(), {id}) && creatures[id].act < |creatures[id].todo|
      requires delay == CalculateDelay(creatures[id], now) && delay > 0
      modifies this`creatures, queue, queue.vec, queue.vec.entry
      ensures Valid() && (queue.vec.entry == old(queue.vec.entry) || fresh(queue.vec.entry))
      ensures View() == Awaiting(old(View()), id, now + delay)
    {
      hide *;
      ViewFields();
      ghost var w := View();
      PostponeKeeps(w, id);
      var c := creatures[id].(nextWakeup := Wrap(now + delay));
      AwaitingIs(w, id, now + delay, c);
      Enqueue(id, c);
    }

    /** The next entry has to wait: stop here or come back when it is due. */
    method Defer(id: nat, delay: nat)
      requires Valid() && id in creatures && Ready(View(), {id}) && creatures[id].act < |creatures[id].todo|
      requires delay == CalculateDelay(creatures[id], now) && delay > 0
      modifies this`creatures, queue, queue.vec, queue.vec.entry
      ensures Valid() && (queue.vec.entry == old(queue.vec.entry) || fresh(queue.vec.entry))
      ensures Ready(View(), {}) && OnlyLater(old(View()), View()) && old(creatures).Keys <= creatures.Keys
      ensures View() ==
        if old(creatures)[id].stop then Put(old(View()), id, Clear(old(creatures)[id]))
        else Awaiting(old(View()), id, now + delay)
    {
      hide *;
      ViewFields();
      if creatures[id].stop {
        LaterSelf(View());
        Abandon(id, View());
      } else {
        PostponeKeeps(View(), id);
        Await(id, delay);
        ViewFields();
      }
    }

    /** After an action: says whether the list goes on. */
    method GoOn(id: nat, outcome: Outcome, ghost w0: World) returns (goOn: bool)
      requires Valid() && id in creatures && Ready(View(), {id}) && OnlyLater(w0, View())
      modifies this`creatures, queue, queue.vec, queue.vec.entry
      ensures Valid() && (queue.vec.entry == old(queue.vec.entry) || fresh(queue.vec.entry))
      ensures Ready(View(), if goOn then {id} else {}) && OnlyLater(w0, View()) && old(creatures).Keys <= creatures.Keys
      ensures Ends(old(View()), View(), id, outcome, goOn)
      ensures goOn ==> View() == old(View())
    {
      hide Ready, OnlyLater, AfterFailure, Clear, IsStarted, IsHeap;
      goOn := false;
      if outcome != Finished {
        AfterFailureIsWait(View(), id, outcome == Exhausted);
        Recover(id, outcome, w0);
      } else if creatures[id].stop {
        Abandon(id, w0);
      } else {
        goOn := true;
      }
    }

    /** One turn of the loop that runs a list. */
    method Turn(id: nat) returns (executed: seq<Todo>, goOn: bool)
      requires Valid() && EffectsFit() && id in creatures && Ready(View(), {id}) && Runs(id)
      modifies this`creatures, this`step, queue, queue.vec, queue.vec.entry
      ensures Valid() && (queue.vec.entry == old(queue.vec.entry) || fresh(queue.vec.entry))
      ensures OnlyLater(old(View()), View()) && old(creatures).Keys <= creatures.Keys && id in creatures
      ensures Ready(View(), if goOn then {id} else {})
      ensures goOn ==> Progress(old(View()), View(), id, 1)
      ensures IsTurn(effects, id, old(Now()), Now(), executed, goOn)
    {
      hide *;
      ViewFields();
      executed, goOn := [], false;
      ghost var w := View();
      if |creatures[id].todo| <= creatures[id].act {
        LaterSelf(w);
        Abandon(id, w);
        Idle(w);
        IdleTurn(effects, id, old(Now()), Now());
        return;
      }
      var delay := CalculateDelay(creatures[id], now);
      if delay > 0 {
        Defer(id, delay);
        ViewFields();
        WaitingTurn(effects, id, old(Now()), Now(), delay);
        return;
      }
      var td, outcome := Act(id);
      executed := [td];
      ViewFields();
      ghost var u := View();
      goOn := GoOn(id, outcome, w);
      ViewFields();
      ActingTurn(effects, id, old(Now()), Now(), td, u, outcome, goOn);
    }

    /** Wakes a creature: runs its list until an entry has to wait, the list is
        used up, or an action stops, clears or restarts it. */
    method Execute(id: nat) returns (executed: seq<Todo>)
      requires Valid() && EffectsFit() && id in creatures
      requires Ready(View(), {id}) && (now < creatures[id].nextWakeup ==> Safe(View(), id))
      modifies this`creatures, this`step, queue, queue.vec, queue.vec.entry
      ensures Valid() && (queue.vec.entry == old(queue.vec.entry) || fresh(queue.vec.entry))
      ensures Ready(View(), {}) && OnlyLater(old(View()), View()) && old(creatures).Keys <= creatures.Keys
      ensures IsStretch(old(creatures)[id], executed)
      ensures Executes(effects, id, old(Now()), Now(), executed)
    {
      hide *;
      ViewFields();
      executed := [];
      ghost var w0, moments := View(), [Now()];
      NoTurnYet(effects, id, moments[0]);
      LaterSelf(w0);
      ProgressSelf(w0, id);
      var goOn := true;
      while goOn && Runs(id)
        invariant Valid() && (queue.vec.entry == old(queue.vec.entry) || fresh(queue.vec.entry))
        invariant View().creatures == creatures && View().now == now
        invariant id in creatures && old(creatures).Keys <= creatures.Keys && OnlyLater(w0, View())
        invariant Ready(View(), if goOn then {id} else {})
        invariant goOn ==> Progress(w0, View(), id, |executed|)
        invariant goOn ==> if executed == [] then View() == w0 else w0.creatures[id].nextWakeup <= now
        invariant IsStretch(w0.creatures[id], executed)
        invariant |moments| > 0 && moments[0] == old(Now()) && moments[|moments| - 1] == Now()
        invariant IsExecution(effects, id, moments, executed, goOn)
        decreases goOn, Left(View(), id)
      {
        ghost var w := View();
        RunsMeans(id);
        ViewFields();
        var more;
        more, goOn := Turn(id);
        ViewFields();
        LaterTransitive(w0, w, View());
        TurnPerforms(effects, id, moments[|moments| - 1], Now(), more, goOn);
        Stretch(w0, w, id, executed, more);
        if goOn {
          ProgressOn(w0, w, View(), id, |executed|);
        }
        OneMoreTurn(effects, id, moments, executed, Now(), more, goOn);
        executed, moments := executed + more, moments + [Now()];
      }
      RunsMeans(id);
      ViewFields();
      ExecutionEnds(effects, id, moments, executed, goOn);
      if goOn {
        StoppedIsSafe(w0, View(), id, |executed|);
        SafeIsReady(View(), id);
      }
    }

    lemma ViewFields()
      requires Valid()
      ensures View().creatures == creatures && View().now == now && Now() == Moment(View(), step)
    {
    }

    lemma RunsMeans(id: nat)
      requires id in creatures
      ensures Runs(id) <==> creatures[id].lock && !creatures[id].dead && creatures[id].nextWakeup <= now
      ensures Valid() ==> (RunsOn(View(), id) <==> Runs(id))
    {
    }

    /** Takes the first entry off the queue. */
    method TakeFirst(e: Entry)
      requires Valid() && queue.entries > 0 && e == queue.View()[0]
      modifies queue, queue.vec, queue.vec.entry
      ensures Valid() && (queue.vec.entry == old(queue.vec.entry) || fresh(queue.vec.entry))
      ensures View() == old(View()).(queue := old(View()).queue - multiset{e})
    {
      hide IsHeap, WithoutMin;
      queue.DeleteMin();
    }

    /** Takes the first entry, which is due, off the queue and wakes its creature. */
    method Serve(e: Entry) returns (executed: seq<Todo>)
      requires Valid() && EffectsFit() && Ready(View(), {})
      requires queue.entries > 0 && e == queue.View()[0] && e in View().queue && e.key <= now
      modifies this`creatures, this`step, queue, queue.vec, queue.vec.entry
      ensures Valid() && (queue.vec.entry == old(queue.vec.entry) || fresh(queue.vec.entry))
      ensures old(creatures).Keys <= creatures.Keys && Ready(View(), {})
      ensures e in Due(old(View()).queue, now)
      ensures Due(View().queue, now) == Due(old(View()).queue, now) - multiset{e}
      ensures Serves(effects, old(Now()), Now(), e, executed)
    {
      hide *;
      ViewFields();
      ghost var a := Now();
      DuePop(a.w.queue, e, now);
      PopKeeps(a.w, e);
      TakeFirst(e);
      ViewFields();
      ghost var v := View();
      executed := [];
      if e.data in creatures {
        executed := Execute(e.data);
        DueLater(v, View());
        ViewFields();
      }
      IsServed(effects, a, v, Now(), e, executed);
    }

    /**
      Advances the clock and serves every entry that is due, which wakes its creature;
      `log` says what was executed for each.
    */
    method MoveCreatures(delay: nat) returns (processed: seq<Entry>, log: seq<seq<Todo>>)
      requires Valid() && EffectsFit() && NoLostWakeup(View(), {}) && AllFit(View()) && now + delay < TWO_TO_32 - 1
      modifies this`now, this`creatures, this`step, queue, queue.vec, queue.vec.entry
      ensures Valid() && (queue.vec.entry == old(queue.vec.entry) || fresh(queue.vec.entry))
      ensures now == old(now) + delay && old(creatures).Keys <= creatures.Keys
      ensures NoLostWakeup(View(), {}) && AllFit(View())
      ensures forall e :: e in View().queue ==> e.key > now
      ensures SortedByKey(processed) && multiset(processed) == Due(old(View()).queue, now)
      ensures ServesAll(effects, Moment(old(View()).(now := now), old(step)), Now(), processed, log)
    {
      now := now + delay;
      ghost var all := Due(View().queue, now);
      assert Ready(View(), {}) && Drained([], all, all);
      processed, log := Drain(all);
      NothingLeft(View().queue, now);
    }

    /** Serves the first entry, after those that are in `processed`. */
    method ServeNext(e: Entry, ghost a: Moment, ghost all: multiset<Entry>,
                     ghost processed: seq<Entry>, ghost log: seq<seq<Todo>>)
      returns (executed: seq<Todo>)
      requires Valid() && EffectsFit() && Ready(View(), {}) && Drained(processed, Due(View().queue, now), all)
      requires queue.entries > 0 && e == queue.View()[0] && e in View().queue && e.key <= now
      requires (forall x :: x in View().queue ==> e.key <= x.key) && ServesAll(effects, a, Now(), processed, log)
      modifies this`creatures, this`step, queue, queue.vec, queue.vec.entry
      ensures Valid() && (queue.vec.entry == old(queue.vec.entry) || fresh(queue.vec.entry))
      ensures old(creatures).Keys <= creatures.Keys && Ready(View(), {})
      ensures Drained(processed + [e], Due(View().queue, now), all)
      ensures |Due(View().queue, now)| < |Due(old(View()).queue, now)|
      ensures ServesAll(effects, a, Now(), processed + [e], log + [executed])
    {
      hide Ready, OnlyLater, IsHeap, Drained, Due, EffectsFit, Serves, ServesAll;
      ghost var before := Now();
      DueFirst(before.w.queue, now, e);
      DrainOne(processed, Due(before.w.queue, now), all, e);
      executed := Serve(e);
      ServedOneMore(effects, a, before, Now(), processed, log, e, executed);
    }

    method Drain(ghost all: multiset<Entry>) returns (processed: seq<Entry>, log: seq<seq<Todo>>)
      requires Valid() && EffectsFit() && Ready(View(), {}) && all == Due(View().queue, now)
      requires Drained([], all, all)
      modifies this`creatures, this`step, queue, queue.vec, queue.vec.entry
      ensures Valid() && (queue.vec.entry == old(queue.vec.entry) || fresh(queue.vec.entry))
      ensures old(creatures).Keys <= creatures.Keys && Ready(View(), {})
      ensures Due(View().queue, now) == multiset{} && Drained(processed, multiset{}, all)
      ensures ServesAll(effects, old(Now()), Now(), processed, log)
    {
      hide Ready, OnlyLater, IsHeap, Drained, Due, EffectsFit, Serves, ServesAll;
      processed, log := [], [];
      ServedNothing(effects, Now());
      while queue.entries > 0
        invariant Valid() && (queue.vec.entry == old(queue.vec.entry) || fresh(queue.vec.entry))
        invariant old(creatures).Keys <= creatures.Keys && Ready(View(), {})
        invariant Drained(processed, Due(View().queue, now), all)
        invariant ServesAll(effects, old(Now()), Now(), processed, log)
        decreases |Due(View().queue, now)|
      {
        ghost var w := View();
        var e := queue.First();
        assert View() == w;
        if e.key > now {
          NothingDue(w.queue, now);
          return;
        }
        var executed := ServeNext(e, old(Now()), all, processed, log);
        processed, log := processed + [e], log + [executed];
      }
      NothingDue(View().queue, now);
    }

    /** Removes a creature; its entries in the queue become stale. */
    method Delete(id: nat)
      requires Valid() && id in creatures
      modifies this`creatures
      ensures Valid() && View() == old(View()).(creatures := old(creatures) - {id})
    {
      var _ := ToDoClear(id);
      creatures := creatures - {id};
    }

    /** Any run of the server: commands from anywhere, removals and beats. */
    method Run(events: seq<Event>)
      requires Valid() && EffectsFit() && NoLostWakeup(View(), {}) && AllFit(View())
      requires now + TotalDelay(events) < TWO_TO_32 - 1
      requires forall i :: 0 <= i < |events| && events[i].Command? ==> OpFits(events[i].op)
      modifies this`now, this`creatures, this`step, queue, queue.vec, queue.vec.entry
      ensures Valid() && now == old(now) + TotalDelay(events)
      ensures NoLostWakeup(View(), {}) && AllFit(View())
    {
      hide NoLostWakeup, AllFit, IsHeap, Do, EffectsFit;
      for i := 0 to |events|
        invariant Valid() && (queue.vec.entry == old(queue.vec.entry) || fresh(queue.vec.entry))
        invariant now + TotalDelay(events[i..]) == old(now) + TotalDelay(events)
        invariant NoLostWakeup(View(), {}) && AllFit(View())
      {
        assert events[i..][0] == events[i] && events[i..][1..] == events[i + 1..];
        match events[i]
        case Command(op) =>
          DoKeeps(View(), op, {});
          DoFits(View(), op);
          Perform(op);
        case Remove(id) =>
          if id in creatures {
            RemoveKeeps(View(), id);
            Delete(id);
          }
        case Beat(delay) =>
          var _, _ := MoveCreatures(delay);
      }
    }

    /** An idle stimulus may queue new actions. */
    method Idle(ghost w0: World)
      requires Valid() && EffectsFit() && Ready(View(), {}) && OnlyLater(w0, View())
      modifies this`creatures, this`step, queue, queue.vec, queue.vec.entry
      ensures Valid() && (queue.vec.entry == old(queue.vec.entry) || fresh(queue.vec.entry))
      ensures Ready(View(), {}) && OnlyLater(w0, View()) && old(creatures).Keys <= creatures.Keys
      ensures Now() == Moment(DoAll(old(View()), effects(old(step)).ops), old(step) + 1)
    {
      hide Ready, OnlyLater, DoAll;
      var effect := effects(step);
      step := step + 1;
      DoAllKeeps(View(), effect.ops, {});
      PerformAll(effect.ops);
      LaterTransitive(w0, old(View()), View());
    }

    /** After an action that failed: wait a second if the creature is exhausted,
        otherwise go on in a moment. */
    method Recover(id: nat, outcome: Outcome, ghost w0: World)
      requires Valid() && id in creatures && Ready(View(), {id}) && OnlyLater(w0, View())
      modifies this`creatures, queue, queue.vec, queue.vec.entry
      ensures Valid() && (queue.vec.entry == old(queue.vec.entry) || fresh(queue.vec.entry))
      ensures Ready(View(), {}) && OnlyLater(w0, View()) && old(creatures).Keys <= creatures.Keys
      ensures View() == AfterFailure(old(View()), id, outcome == Exhausted)
    {
      hide Ready, OnlyLater, Start, Yield, IsStarted, IsHeap;
      AfterFailureKeeps(View(), id, outcome == Exhausted);
      var _ := ToDoClear(id);
      if outcome == Exhausted {
        ToDoAdd(id, Wait(Wrap(now + 1000)));
        ToDoStart(id);
      } else {
        ToDoYield(id);
      }
      assert View() == AfterFailure(old(View()), id, outcome == Exhausted);
      LaterTransitive(w0, old(View()), View());
    }
  }

  /** A consecutive part of the list of `c`, from its next entry on. */
  ghost predicate IsStretch(c: Creature, executed: seq<Todo>) {
    executed == [] || (c.act + |executed| <= |c.todo| && executed == c.todo[c.act..c.act + |executed|])
  }

  lemma Stretch(w0: World, w: World, id: nat, executed: seq<Todo>, more: seq<Todo>)
    requires id in w0.creatures && id in w.creatures
    requires Progress(w0, w, id, |executed|) && w.creatures[id].lock && w.creatures[id].nextWakeup <= w.now
    requires IsStretch(w0.creatures[id], executed)
    requires more == [] || (w.creatures[id].act < |w.creatures[id].todo| && more == [w.creatures[id].todo[w.creatures[id].act]])
    ensures IsStretch(w0.creatures[id], executed + more)
  {
    var c := w0.creatures[id];
    assert Calm(c.(act := c.act + |executed|), w.creatures[id]);
    if more == [] {
      assert executed + more == executed;
    }
  }

  lemma AwaitingIs(w: World, id: nat, time: nat, c: Creature)
    requires id in w.creatures && c == w.creatures[id].(nextWakeup := time)
    ensures Awaiting(w, id, time) == World(w.now, w.creatures[id := c], w.queue + multiset{Entry(c.nextWakeup, id)})
  {
  }

  lemma IdleTurn(effects: nat -> Effect, id: nat, a: Moment, b: Moment)
    requires id in a.w.creatures && a.w.creatures[id].act >= |a.w.creatures[id].todo|
    requires b == Moment(DoAll(Put(a.w, id, Clear(a.w.creatures[id])), effects(a.step).ops), a.step + 1)
    ensures IsTurn(effects, id, a, b, [], false)
  {
  }

  lemma WaitingTurn(effects: nat -> Effect, id: nat, a: Moment, b: Moment, delay: nat)
    requires id in a.w.creatures && a.w.creatures[id].act < |a.w.creatures[id].todo|
    requires delay == CalculateDelay(a.w.creatures[id], a.w.now) && delay > 0 && b.step == a.step
    requires var c := a.w.creatures[id];
      b.w == if c.stop then Put(a.w, id, Clear(c)) else Awaiting(a.w, id, a.w.now + delay)
    ensures IsTurn(effects, id, a, b, [], false)
  {
    hide CalculateDelay, MayRun, IsTime, Awaiting, Clear;
    DelayIsRest(a.w.creatures[id], a.w.now);
  }

  lemma ActingTurn(effects: nat -> Effect, id: nat, a: Moment, b: Moment, td: Todo, u: World, outcome: Outcome, goOn: bool)
    requires id in a.w.creatures && a.w.creatures[id].act < |a.w.creatures[id].todo|
    requires var c := a.w.creatures[id];
      var v := Put(a.w, id, c.(act := c.act + 1));
      && CalculateDelay(c, a.w.now) == 0 && td == c.todo[c.act]
      && if td.Wait? then u == v && b.step == a.step && outcome == Finished
         else u == DoAll(v, effects(a.step).ops) && b.step == a.step + 1 && outcome == effects(a.step).outcome
    requires Ends(u, b.w, id, outcome, goOn)
    ensures IsTurn(effects, id, a, b, [td], goOn)
  {
    hide CalculateDelay, MayRun, Ends, DoAll;
    DelayIsRest(a.w.creatures[id], a.w.now);
  }

  lemma NoTurnYet(effects: nat -> Effect, id: nat, a: Moment)
    requires id in a.w.creatures
    ensures IsExecution(effects, id, [a], [], true)
  {
  }

  lemma ExecutionEnds(effects: nat -> Effect, id: nat, moments: seq<Moment>, executed: seq<Todo>, goOn: bool)
    requires IsExecution(effects, id, moments, executed, goOn)
    requires var last := moments[|moments| - 1].w; goOn ==> id in last.creatures && !RunsOn(last, id)
    ensures Executes(effects, id, moments[0], moments[|moments| - 1], executed)
  {
    hide IsTurn;
  }

  lemma IsServed(effects: nat -> Effect, a: Moment, v: World, b: Moment, e: Entry, executed: seq<Todo>)
    requires e in a.w.queue && v == a.w.(queue := a.w.queue - multiset{e})
    requires e.data in v.creatures ==> Executes(effects, e.data, Moment(v, a.step), b, executed)
    requires e.data !in v.creatures ==> executed == [] && b == Moment(v, a.step)
    ensures Serves(effects, a, b, e, executed)
  {
    hide Executes;
  }

  /** The due entries `processed` were served one after the other, which executed `log`. */
  ghost predicate ServesAll(effects: nat -> Effect, a: Moment, b: Moment, processed: seq<Entry>, log: seq<seq<Todo>>) {
    && |log| == |processed|
    && exists moments: seq<Moment> ::
         && |moments| == |processed| + 1 && moments[0] == a && moments[|processed|] == b
         && forall k :: 0 <= k < |processed| ==> Serves(effects, moments[k], moments[k + 1], processed[k], log[k])
  }

  lemma ServedNothing(effects: nat -> Effect, a: Moment)
    ensures ServesAll(effects, a, a, [], [])
  {
    var moments := [a];
    assert |moments| == 1 && moments[0] == a;
  }

  lemma ServedOneMore(effects: nat -> Effect, a: Moment, b: Moment, c: Moment,
                      processed: seq<Entry>, log: seq<seq<Todo>>, e: Entry, executed: seq<Todo>)
    requires ServesAll(effects, a, b, processed, log) && Serves(effects, b, c, e, executed)
    ensures ServesAll(effects, a, c, processed + [e], log + [executed])
  {
    hide Serves;
    var n := |processed|;
    var moments: seq<Moment> :|
      && |moments| == n + 1 && moments[0] == a && moments[n] == b
      && forall k :: 0 <= k < n ==> Serves(effects, moments[k], moments[k + 1], processed[k], log[k]);
    var more := moments + [c];
    forall k | 0 <= k < n + 1 ensures Serves(effects, more[k], more[k + 1], (processed + [e])[k], (log + [executed])[k]) {
    }
    assert |more| == n + 2 && more[0] == a && more[n + 1] == c;
  }

  lemma StartNothing(w: World, id: nat)
    requires id in w.creatures && w.creatures[id].todo == []
    ensures Start(w, id) == w
  {
  }

  lemma NothingDue(q: multiset<Entry>, now: nat)
    requires forall e :: e in q ==> e.key > now
    ensures Due(q, now) == multiset{}
  {
  }

  lemma NothingLeft(q: multiset<Entry>, now: nat)
    requires Due(q, now) == multiset{}
    ensures forall e :: e in q ==> e.key > now
  {
    forall e | e in q ensures e.key > now {
      assert Due(q, now)[e] == 0;
    }
  }

  lemma DueFirst(q: multiset<Entry>, now: nat, e: Entry)
    requires e in q && e.key <= now && forall x :: x in q ==> e.key <= x.key
    ensures e in Due(q, now) && |Due(q, now) - multiset{e}| < |Due(q, now)|
    ensures forall x :: x in Due(q, now) ==> e.key <= x.key
  {
    hide Due;
    DuePop(q, e, now);
    DueAreIn(q, now);
  }

  lemma DueAreIn(q: multiset<Entry>, now: nat)
    ensures forall e :: e in Due(q, now) ==> e in q
  {
  }

  lemma LaterSelf(w: World)
    ensures OnlyLater(w, w)
  {
  }

  lemma ProgressSelf(w: World, id: nat)
    requires id in w.creatures
    ensures Progress(w, w, id, 0) && IsStretch(w.creatures[id], [])
  {
  }

  /** How many turns the list of `id` can still take. */
  ghost function Left(w: World, id: nat): nat
    requires id in w.creatures
  {
    var c := w.creatures[id];
    if Parked(w, id) then 0 else 1 + if c.act < |c.todo| then |c.todo| - c.act else 0
  }

  /** A list that runs is one entry further after each action. */
  lemma ProgressOn(w0: World, w: World, v: World, id: nat, n: nat)
    requires id in w0.creatures && id in w.creatures && id in v.creatures
    requires Progress(w0, w, id, n) && Progress(w, v, id, 1)
    requires w.creatures[id].lock && w.creatures[id].nextWakeup <= w.now
    requires w.creatures[id].act < |w.creatures[id].todo|
    ensures w0.creatures[id].nextWakeup == w.creatures[id].nextWakeup
    ensures Progress(w0, v, id, n + 1) && Left(v, id) < Left(w, id)
  {
  }

  /** A list that does not run on is unlocked or queued. */
  lemma StoppedIsSafe(w0: World, w: World, id: nat, n: nat)
    requires id in w0.creatures && id in w.creatures && Progress(w0, w, id, n)
    requires if n == 0 then w == w0 else w0.creatures[id].nextWakeup <= w.now
    requires w0.now < w0.creatures[id].nextWakeup ==> Safe(w0, id)
    requires var c := w.creatures[id]; !c.lock || c.dead || w.now < c.nextWakeup
    ensures Safe(w, id)
  {
  }
}
