/** The loops of the engine's and the dispatcher's threads as the classes run them, tied to the
    actions of the pipeline: each trip round a loop is a few actions of the interleaving model. */
module Threads {
  import opened Numbers
  import opened Signals
  import opened Deduplicator
  import opened AlertDispatcher
  import opened RiskEngine
  import opened Pipeline

  /** Taking these actions one after the other leads from s to t. */
  ghost predicate Leads(sys: System, s: World, steps: seq<Action>, t: World)
    decreases |steps|
  {
    if steps == [] then s == t
    else Enabled(sys, s, steps[0]) && Leads(sys, Apply(sys, s, steps[0]), steps[1..], t)
  }

  lemma LeadsNowhere(sys: System, s: World)
    ensures Leads(sys, s, [], s)
  {
  }

  lemma LeadsOne(sys: System, s: World, a: Action)
    requires Enabled(sys, s, a)
    ensures Leads(sys, s, [a], Apply(sys, s, a))
  {
  }

  lemma LeadsTwo(sys: System, s: World, a: Action, b: Action)
    requires Enabled(sys, s, a) && Enabled(sys, Apply(sys, s, a), b)
    ensures Leads(sys, s, [a, b], Apply(sys, Apply(sys, s, a), b))
  {
    LeadsOne(sys, Apply(sys, s, a), b);
    assert [a, b][1..] == [b];
  }

  lemma {:induction false} LeadsOn(sys: System, s: World, steps: seq<Action>, t: World, a: Action)
    requires Leads(sys, s, steps, t) && Enabled(sys, t, a)
    ensures Leads(sys, s, steps + [a], Apply(sys, t, a))
    decreases |steps|
  {
    hide Enabled, Apply;
    if steps == [] {
      LeadsOne(sys, s, a);
    } else {
      LeadsOn(sys, Apply(sys, s, steps[0]), steps[1..], t, a);
      assert (steps + [a])[1..] == steps[1..] + [a];
    }
  }

  /** What a run can reach, it can also reach and then go on from. */
  lemma {:induction false} RunOn(sys: System, run: seq<Action>, steps: seq<Action>, t: World)
    requires Feasible(sys, run) && Leads(sys, After(sys, run), steps, t)
    ensures Feasible(sys, run + steps) && After(sys, run + steps) == t
    decreases |steps|
  {
    hide Enabled, Apply;
    if steps == [] {
      assert run + steps == run;
    } else {
      OneMore(sys, run, steps[0]);
      RunOn(sys, run + [steps[0]], steps[1..], t);
      assert run + [steps[0]] + steps[1..] == run + steps;
    }
  }

  // ---------------------------------------------------------------- the dispatcher's thread

  /** The dispatcher outside its loop, as the pipeline sees it. */
  ghost predicate DeskStands(d: Dispatcher, sys: System, s: World)
    reads d, d.deduplicator
  {
    && d.Valid() && d.deduplicator.cfg == sys.dedup && d.deduplicator.maxConfiguredWindowMs == sys.maxWindow
    && |d.channels| == sys.channelCount
    && s.queue == d.queue && s.dispatcherRunning == d.running
    && (forall i :: 0 <= i < |s.handled| ==> |s.handled[i].works| == sys.channelCount)
    && d.Abstract() == DeskAfter(sys.dedup, sys.maxWindow, sys.channelCount, s.handled)
  }

  /** The same between two trips. */
  ghost predicate DispatcherStands(d: Dispatcher, sys: System, s: World)
    reads d, d.deduplicator
  {
    DeskStands(d, sys, s) && s.dispatcher == Waiting
  }

  lemma OneMaximum(cfg: Config, v: nat, w: nat)
    requires cfg.IsMaxWindow(v) && cfg.IsMaxWindow(w)
    ensures v == w
  {
  }

  /** A new dispatcher stands where every run begins. */
  method NewDispatcher(names: seq<string>, ruleTypes: set<string>, metrics: bool, cfg: Config, ghost sys: System)
    returns (d: Dispatcher)
    requires sys.dedup == cfg && cfg.IsMaxWindow(sys.maxWindow) && sys.channelCount == |names|
    ensures fresh(d) && fresh(d.deduplicator) && DeskStands(d, sys, Init(sys))
  {
    d := new Dispatcher(cfg, names, ruleTypes, metrics);
    OneMaximum(cfg, d.deduplicator.maxConfiguredWindowMs, sys.maxWindow);
  }

  /** The thread begins: it sets the flag, whatever the main thread did to it before. */
  method DispatcherBegins(d: Dispatcher, ghost sys: System, ghost s: World) returns (ghost t: World)
    requires DeskStands(d, sys, s) && s.dispatcher == NotStarted
    modifies d`running
    ensures Leads(sys, s, [DispatcherStart], t) && DispatcherStands(d, sys, t)
  {
    hide DeskAfter;
    t := Apply(sys, s, DispatcherStart);
    LeadsOne(sys, s, DispatcherStart);
    d.Start();
  }

  /** The main thread's order to stop, wherever the dispatcher is. */
  method DispatcherToldToStop(d: Dispatcher, ghost sys: System, ghost s: World) returns (ghost t: World)
    requires DeskStands(d, sys, s) && s.main == StopDispatcher
    modifies d`running
    ensures Leads(sys, s, [MainStopDispatcher], t) && DeskStands(d, sys, t) && t.dispatcher == s.dispatcher
  {
    hide DeskAfter;
    t := Apply(sys, s, MainStopDispatcher);
    LeadsOne(sys, s, MainStopDispatcher);
    d.Stop();
  }

  /** A trip is nothing, an exit, or a take followed by a handling. */
  method DispatcherTrip(d: Dispatcher, now: uint64, works: seq<bool>, ghost sys: System, ghost s: World)
    returns (trip: Trip, ghost steps: seq<Action>, ghost t: World)
    requires DispatcherStands(d, sys, s) && |works| == sys.channelCount
    modifies d`queue, d`suppressed, d`channels, d`counters, d.deduplicator
    ensures Leads(sys, s, steps, t)
    ensures trip == Idled ==> steps == []
    ensures trip == Left ==> steps == [DispatcherExit] && t.dispatcher == Exited
    ensures trip.Took? ==> steps == [DispatcherTake, DispatcherHandle(now, works)]
    ensures trip != Left ==> DispatcherStands(d, sys, t)
  {
    hide Leads, HandleAlert, DeskAfter, CountAlert, Suppresses, Scan;
    trip := d.LoopOnce(now, works);
    steps, t := [], s;
    LeadsNowhere(sys, s);
    if trip == Left {
      steps, t := [DispatcherExit], Apply(sys, s, DispatcherExit);
      LeadsOne(sys, s, DispatcherExit);
    } else if trip.Took? {
      var taken := Apply(sys, s, DispatcherTake);
      steps := [DispatcherTake, DispatcherHandle(now, works)];
      t := Apply(sys, taken, DispatcherHandle(now, works));
      LeadsTwo(sys, s, DispatcherTake, DispatcherHandle(now, works));
      OneMoreHandled(sys, s.handled, Handled(Event(trip.alert, now), works));
    }
  }

  lemma OneMoreHandled(sys: System, handled: seq<Handled>, h: Handled)
    requires |h.works| == sys.channelCount
    requires forall i :: 0 <= i < |handled| ==> |handled[i].works| == sys.channelCount
    ensures DeskAfter(sys.dedup, sys.maxWindow, sys.channelCount, handled + [h])
            == HandleAlert(sys.dedup, sys.maxWindow, DeskAfter(sys.dedup, sys.maxWindow, sys.channelCount, handled),
                           h.event.alert, h.event.now, h.works)
  {
    hide HandleAlert;
    assert (handled + [h])[..|handled|] == handled;
  }

  // ---------------------------------------------------------------- the engine's thread

  class EngineThread {
    const engine: Engine
    const dispatcher: Dispatcher
    var ring: seq<Signal>
    var running: bool
    var drainMode: bool
    var finished: bool

    constructor (engine: Engine, dispatcher: Dispatcher)
      ensures this.engine == engine && this.dispatcher == dispatcher
      ensures ring == [] && running && !drainMode && !finished
    {
      this.engine := engine;
      this.dispatcher := dispatcher;
      ring, running, drainMode, finished := [], true, false, false;
    }

    /** The engine at the top of its loop, as the pipeline sees it. */
    ghost predicate Stands(s: World)
      reads this, engine, dispatcher
    {
      && engine.Valid() && !finished
      && s.engine == Polling && s.ring == ring && s.engineRunning == running && s.drain == drainMode
      && s.rules == engine.rules && s.queue == dispatcher.queue
    }

    /** The main thread's order to stop, at the top of the loop. */
    method Stop(ghost sys: System, ghost s: World) returns (ghost t: World)
      requires Stands(s) && s.main == StopEngine
      modifies this`running
      ensures Leads(sys, s, [MainStopEngine], t) && Stands(t) && !running
    {
      running := false;
      t := Apply(sys, s, MainStopEngine);
      LeadsOne(sys, s, MainStopEngine);
    }

    /** A trip leaves because it was stopped or has drained the ring, spins on an empty ring,
        swallows the pill, or evaluates a signal and dispatches its alerts one by one. */
    method Trip(ghost sys: System, ghost s: World) returns (left: bool, ghost steps: seq<Action>, ghost t: World)
      requires Stands(s)
      modifies this`ring, this`drainMode, this`finished, engine`rules, dispatcher`queue
      ensures Leads(sys, s, steps, t)
      ensures left <==> !running || (old(ring) == [] && drainMode)
      ensures left ==> finished && t.engine == Done(running)
      ensures !left ==> Stands(t)
      ensures !left && old(ring) == [] ==> steps == []
      ensures running && old(ring) != [] ==>
                if old(ring)[0].IsPill() then steps == [EnginePop]
                else steps == [EnginePop] + seq(|Scan(s.rules, s.ring[0]).1|, _ => EngineDispatch) + [EngineNext]
    {
      hide Leads, Scan;
      steps, t := [], s;
      LeadsNowhere(sys, s);
      if !running {
        finished := true;
        steps, t := [EngineSeesStop], Apply(sys, s, EngineSeesStop);
        LeadsOne(sys, s, EngineSeesStop);
        return true, steps, t;
      }
      if ring != [] {
        var signal := ring[0];
        ring := ring[1..];
        steps, t := [EnginePop], Apply(sys, s, EnginePop);
        LeadsOne(sys, s, EnginePop);
        if signal.kind == Control && signal.payload.ControlPayload? && signal.payload.command == Command.Stop {
          drainMode := true;
          return false, steps, t;
        }
        var alerts := engine.ProcessSignal(signal);
        steps, t := DispatchAll(alerts, sys, s, steps, t);
        LeadsOn(sys, s, steps, t, EngineNext);
        steps, t := steps + [EngineNext], Apply(sys, t, EngineNext);
        return false, steps, t;
      }
      if drainMode {
        finished := true;
        LeadsTwo(sys, s, EngineSeesEmpty, EngineDrained);
        steps, t := [EngineSeesEmpty, EngineDrained], Apply(sys, Apply(sys, s, EngineSeesEmpty), EngineDrained);
        return true, steps, t;
      }
      return false, steps, t;
    }

    /** The loop that hands the alerts of one signal to the dispatcher. */
    method DispatchAll(
      alerts: seq<Alert>, ghost sys: System, ghost s: World, ghost before: seq<Action>, ghost popped: World)
      returns (ghost steps: seq<Action>, ghost t: World)
      requires Leads(sys, s, before, popped)
      requires popped.engine == Dispatching(alerts) && popped.queue == dispatcher.queue
      modifies dispatcher`queue
      ensures steps == before + seq(|alerts|, _ => EngineDispatch) && Leads(sys, s, steps, t)
      ensures dispatcher.queue == old(dispatcher.queue) + alerts
      ensures t == popped.(engine := Dispatching([]), queue := dispatcher.queue)
    {
      hide Leads, Scan;
      steps, t := before, popped;
      for k := 0 to |alerts|
        invariant steps == before + seq(k, _ => EngineDispatch) && Leads(sys, s, steps, t)
        invariant dispatcher.queue == old(dispatcher.queue) + alerts[..k]
        invariant t == popped.(engine := Dispatching(alerts[k..]), queue := dispatcher.queue)
      {
        dispatcher.Dispatch(alerts[k]);
        LeadsOn(sys, s, steps, t, EngineDispatch);
        assert alerts[k..][1..] == alerts[k + 1..];
        steps, t := steps + [EngineDispatch], Apply(sys, t, EngineDispatch);
      }
    }
  }
}
