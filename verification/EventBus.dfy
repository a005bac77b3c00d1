/** Fire-and-forget publishing on an event bus, and `drain`, which waits for all of it: as steps of an event loop
    that may run anything in any order while the bus waits. */
module EventBus {
  import opened Wrappers

  type Task = nat

  /** What can happen while the bus waits: a task finishes, and its done-callback is queued; somebody publishes; a
      queued done-callback runs. */
  datatype Event = Finish(task: Task) | Publish | Callback(task: Task)

  /** Tasks are numbered as they are published, `next` being how many there were. `tracked` is the bus's own set, and
      `budget` how many more publishes there will be. */
  datatype World = World(next: nat, unfinished: set<Task>, tracked: set<Task>, queued: set<Task>, budget: nat)

  function Idle(budget: nat): World {
    World(0, {}, {}, {}, budget)
  }

  /** `publish_soon`. */
  function Published(w: World): World
    requires w.budget > 0
  {
    World(w.next + 1, w.unfinished + {w.next}, w.tracked + {w.next}, w.queued, w.budget - 1)
  }

  function Step(w: World, e: Event): Option<World> {
    match e
    case Finish(t) =>
      if t !in w.unfinished then None else Some(w.(unfinished := w.unfinished - {t}, queued := w.queued + {t}))
    case Publish => if w.budget == 0 then None else Some(Published(w))
    case Callback(t) =>
      if t !in w.queued then None else Some(w.(tracked := w.tracked - {t}, queued := w.queued - {t}))
  }

  function Run(w: World, events: seq<Event>): Option<World>
    decreases |events|
  {
    if events == [] then Some(w)
    else
      match Step(w, events[0])
      case None => None
      case Some(w') => Run(w', events[1..])
  }

  /** No task is lost sight of before it has finished. */
  ghost predicate Inv(w: World) {
    && w.unfinished <= w.tracked
    && w.queued !! w.unfinished
    && (forall t | t in w.tracked :: t < w.next)
    && (forall t | t in w.queued :: t < w.next)
  }

  /** How much can still happen, callbacks apart. */
  function Measure(w: World): nat {
    2 * w.budget + |w.unfinished|
  }

  lemma StepInv(w: World, e: Event)
    requires Inv(w) && Step(w, e).Some?
    ensures Inv(Step(w, e).value)
    ensures var w' := Step(w, e).value;
            && w.next <= w'.next && (forall t | t in w'.unfinished :: t in w.unfinished || w.next <= t < w'.next)
            && (if e.Callback? then w'.unfinished == w.unfinished && Measure(w') == Measure(w)
                else Measure(w') < Measure(w))
  {
  }

  lemma {:induction false} RunInv(w: World, events: seq<Event>)
    requires Inv(w) && Run(w, events).Some?
    ensures Inv(Run(w, events).value)
    ensures var w' := Run(w, events).value;
            && w.next <= w'.next && (forall t | t in w'.unfinished :: t in w.unfinished || w.next <= t < w'.next)
            && Measure(w') <= Measure(w)
            && (w'.unfinished != w.unfinished ==> Measure(w') < Measure(w))
    decreases |events|
  {
    if events != [] {
      StepInv(w, events[0]);
      RunInv(Step(w, events[0]).value, events[1..]);
    }
  }

  // ---- waiting --------------------------------------------------------------------------------

  /** What the event loop does while the bus waits for `pending`: any events at all, by the end of which those tasks
      have finished. Whatever else it does is its own affair: other tasks may finish or not, callbacks may run or
      not. */
  type Loop = (World, set<Task>) -> seq<Event>

  ghost predicate Waits(w: World, pending: set<Task>, events: seq<Event>) {
    Run(w, events).Some? && pending !! Run(w, events).value.unfinished
  }

  ghost predicate Legal(loop: Loop) {
    forall w, pending :: Inv(w) && pending <= w.unfinished ==> Waits(w, pending, loop(w, pending))
  }

  /** Dropping the finished tasks that the bus still tracks. */
  function Sweep(w: World): World {
    w.(tracked := w.tracked * w.unfinished)
  }

  lemma WaitProgress(loop: Loop, w: World)
    requires Legal(loop) && Inv(w) && Sweep(w).tracked != {}
    ensures var s := Sweep(w);
            && Inv(s) && Run(s, loop(s, s.tracked)).Some?
            && Inv(Run(s, loop(s, s.tracked)).value)
            && Measure(Run(s, loop(s, s.tracked)).value) < Measure(w)
            && w.next <= Run(s, loop(s, s.tracked)).value.next
  {
    var s := Sweep(w);
    assert Waits(s, s.tracked, loop(s, s.tracked));
    RunInv(s, loop(s, s.tracked));
    var t :| t in s.tracked;
    assert t in w.unfinished && t !in Run(s, loop(s, s.tracked)).value.unfinished;
  }

  /** `drain`. That it comes to an end for every event loop is this function's termination. */
  ghost function Drain(loop: Loop, w: World): World
    requires Legal(loop) && Inv(w)
    decreases Measure(w)
  {
    var s := Sweep(w);
    if s.tracked == {} then s
    else
      WaitProgress(loop, w);
      Drain(loop, Run(s, loop(s, s.tracked)).value)
  }

  /** When it returns, every task ever published has finished, those published while it waited included, and the bus
      tracks none. */
  lemma {:induction false} DrainFinishesAll(loop: Loop, w: World)
    requires Legal(loop) && Inv(w)
    ensures var w' := Drain(loop, w);
            && Inv(w') && w'.unfinished == {} && w'.tracked == {} && w.next <= w'.next
    decreases Measure(w)
  {
    var s := Sweep(w);
    if s.tracked != {} {
      WaitProgress(loop, w);
      DrainFinishesAll(loop, Run(s, loop(s, s.tracked)).value);
    }
  }

  /** A run of publishes and of anything else the event loop does, then a drain. */
  lemma DrainAfterAnything(loop: Loop, events: seq<Event>, budget: nat)
    requires Legal(loop) && Run(Idle(budget), events).Some?
    ensures Inv(Run(Idle(budget), events).value)
    ensures Drain(loop, Run(Idle(budget), events).value).unfinished == {}
  {
    RunInv(Idle(budget), events);
    DrainFinishesAll(loop, Run(Idle(budget), events).value);
  }

  // ---- why the finished tasks are dropped by hand ---------------------------------------------

  /** A finished task stays tracked until its done-callback runs, however long that is: waiting for the tracked set
      itself to empty would wait for a callback that nothing makes the loop run. */
  lemma {:induction false} FinishedStaysTracked(w: World, events: seq<Event>, t: Task)
    requires t in w.tracked && Run(w, events).Some? && Callback(t) !in events
    ensures t in Run(w, events).value.tracked
    decreases |events|
  {
    if events != [] {
      FinishedStaysTracked(Step(w, events[0]).value, events[1..], t);
    }
  }

  /** Nor longer: what is tracked has not finished, or its callback is still to run. */
  ghost predicate NoLeak(w: World) {
    w.tracked <= w.unfinished + w.queued
  }

  lemma {:induction false} TrackedExactly(w: World, events: seq<Event>)
    requires Inv(w) && NoLeak(w) && Run(w, events).Some?
    ensures Inv(Run(w, events).value) && NoLeak(Run(w, events).value)
    ensures var w' := Run(w, events).value; w'.queued == {} ==> w'.tracked == w'.unfinished
    decreases |events|
  {
    if events != [] {
      StepInv(w, events[0]);
      TrackedExactly(Step(w, events[0]).value, events[1..]);
    }
  }

  /** A callback runs once. */
  lemma {:induction false} CallbackOnce(w: World, events: seq<Event>, t: Task)
    requires Inv(w) && Step(w, Callback(t)).Some? && Run(Step(w, Callback(t)).value, events).Some?
    ensures Callback(t) !in events
  {
    GoneForGood(Step(w, Callback(t)).value, events, t);
  }

  lemma {:induction false} GoneForGood(w: World, events: seq<Event>, t: Task)
    requires t < w.next && t !in w.unfinished && t !in w.queued && Run(w, events).Some?
    ensures Callback(t) !in events
    decreases |events|
  {
    if events != [] {
      GoneForGood(Step(w, events[0]).value, events[1..], t);
      assert events == [events[0]] + events[1..];
    }
  }

  /** Event loops as required exist, one that finishes whatever is pending and nothing else for one. */
  ghost function FinishOnly(pending: set<Task>): seq<Event> {
    if pending == {} then []
    else
      var t :| t in pending;
      [Finish(t)] + FinishOnly(pending - {t})
  }

  lemma {:induction false} FinishOnlyWaits(w: World, pending: set<Task>)
    requires pending <= w.unfinished
    ensures Waits(w, pending, FinishOnly(pending))
    decreases |pending|
  {
    if pending != {} {
      var events := FinishOnly(pending);
      var t := events[0].task;
      assert events[1..] == FinishOnly(pending - {t});
      var w' := Step(w, Finish(t)).value;
      FinishOnlyWaits(w', pending - {t});
      RunShrinks(w', events[1..], t, pending - {t});
    }
  }

  lemma {:induction false} RunShrinks(w: World, events: seq<Event>, t: Task, pending: set<Task>)
    requires events == FinishOnly(pending) && t !in w.unfinished && Run(w, events).Some?
    ensures t !in Run(w, events).value.unfinished
    decreases |pending|
  {
    if pending != {} {
      var s := events[0].task;
      assert events[1..] == FinishOnly(pending - {s});
      RunShrinks(Step(w, events[0]).value, events[1..], t, pending - {s});
    }
  }

  lemma LegalLoopExists()
    ensures Legal((w, pending) => FinishOnly(pending))
  {
    forall w, pending: set<Task> | Inv(w) && pending <= w.unfinished
      ensures Waits(w, pending, FinishOnly(pending))
    {
      FinishOnlyWaits(w, pending);
    }
  }

  // ---- the bus as the object it is ------------------------------------------------------------

  class Bus {
    var background: set<Task>

    // The event loop the bus runs on.
    var next: nat
    var unfinished: set<Task>
    var queued: set<Task>
    var budget: nat

    ghost function View(): World
      reads this
    {
      World(next, unfinished, background, queued, budget)
    }

    constructor (budget: nat)
      ensures View() == Idle(budget)
    {
      background, next, unfinished, queued := {}, 0, {}, {};
      this.budget := budget;
    }

    /** `publish_soon`; off the loop's thread the event is dropped. */
    method PublishSoon(onLoop: bool) returns (task: Option<Task>)
      requires budget > 0
      modifies this
      ensures if onLoop then task == Some(old(next)) && View() == Published(old(View()))
              else task == None && View() == old(View())
    {
      if !onLoop {
        return None;
      }
      task := Some(next);
      unfinished := unfinished + {next};
      background := background + {next};
      next := next + 1;
      budget := budget - 1;
    }

    /** The event loop running through `events`. */
    method Await(events: seq<Event>)
      requires Run(View(), events).Some?
      modifies this
      ensures View() == Run(old(View()), events).value
    {
      for i := 0 to |events|
        invariant Run(View(), events[i..]) == Run(old(View()), events)
      {
        assert events[i..][1..] == events[i + 1..];
        match events[i]
        case Finish(t) =>
          unfinished, queued := unfinished - {t}, queued + {t};
        case Publish =>
          var _ := PublishSoon(true);
        case Callback(t) =>
          background, queued := background - {t}, queued - {t};
      }
    }

    /** The finished tasks dropped, and the others. */
    method DropFinished() returns (pending: set<Task>)
      modifies this`background
      ensures View() == Sweep(old(View())) && pending == background
    {
      var tracked := background;
      var left := tracked;
      pending := {};
      while left != {}
        invariant left <= tracked
        invariant forall t :: t in background <==> t in tracked && (t in left || t in unfinished)
        invariant forall t :: t in pending <==> t in tracked && t !in left && t in unfinished
        decreases |left|
      {
        var task :| task in left;
        left := left - {task};
        if task in unfinished {
          pending := pending + {task};
        } else {
          background := background - {task};
        }
      }
      assert background == pending == tracked * unfinished;
    }

    method DrainAll(loop: Loop)
      requires Legal(loop) && Inv(View())
      modifies this
      ensures View() == Drain(loop, old(View()))
      ensures unfinished == {} && background == {}
    {
      hide Inv, Run, Legal, Measure, Sweep;
      DrainFinishesAll(loop, View());
      while true
        invariant Inv(View()) && Drain(loop, View()) == Drain(loop, old(View()))
        decreases Measure(View())
      {
        ghost var before := View();
        var pending := DropFinished();
        if pending == {} {
          return;
        }
        WaitProgress(loop, before);
        Await(loop(World(next, unfinished, background, queued, budget), pending));
      }
    }
  }
}
