/** The four threads of a backtest and how they shut down (src/backtest/backtest_app.cpp,
    src/risk/risk_engine.cpp, src/risk/alert_dispatcher.cpp): a producer, the engine and the
    dispatcher around a bounded ring and an unbounded queue, and the main thread that joins the
    producer, pushes the poison pill, waits for the engine and then stops the dispatcher. Every
    interleaving is a sequence of actions; spinning and sleeping change nothing and are not
    actions. */
module Pipeline {
  import opened Results
  import opened Numbers
  import opened Signals
  import opened Deduplicator
  import opened AlertDispatcher
  import opened RiskEngine

  /** What a run starts from. signals is what the producer has to push. */
  datatype System = System(
    rules: seq<Rule>, signals: seq<Signal>, dedup: Deduplicator.Config, maxWindow: nat, channelCount: nat,
    capacity: nat)
  {
    ghost predicate Valid() {
      capacity > 0 && forall i :: 0 <= i < |signals| ==> !signals[i].IsPill()
    }
  }

  const PILL: Signal := Signal(Control, Meta(0, None, None, false, 0), ControlPayload(Stop))

  datatype MainPc =
    | JoinProducer
    | PushPill
    | AwaitEngine
    | StopEngine
    | JoinEngine
    | StopDispatcher
    | JoinDispatcher
    | Finished

  /** Polling is the top of the engine's loop; SawEmpty is after an empty ring was seen while
      draining; Done records whether the engine left by draining or because it was stopped. */
  datatype EnginePc = Polling | Dispatching(pending: seq<Alert>) | SawEmpty | Done(drained: bool)

  datatype DispatcherPc = NotStarted | Waiting | InHand(alert: Alert) | Exited

  datatype World = World(
    src: seq<Signal>, ring: seq<Signal>,
    main: MainPc, pillPushed: bool,
    engine: EnginePc, engineRunning: bool, drain: bool, rules: seq<Rule>,
    queue: seq<Alert>,
    dispatcher: DispatcherPc, dispatcherRunning: bool, handled: seq<Handled>)

  function Init(sys: System): World {
    World(sys.signals, [], JoinProducer, false, Polling, true, false, sys.rules, [], NotStarted, false, [])
  }

  datatype Action =
    | ProducerPush
    | MainJoinProducer
    | MainPushPill
    | MainPillTimeout
    | MainSeesEngineDone
    | MainDrainTimeout
    | MainStopEngine
    | MainJoinEngine
    | MainStopDispatcher
    | MainJoinDispatcher
    | EnginePop
    | EngineDispatch
    | EngineNext
    | EngineSeesEmpty
    | EngineDrained
    | EngineSeesStop
    | DispatcherStart
    | DispatcherTake
    | DispatcherHandle(now: uint64, works: seq<bool>)
    | DispatcherExit

  predicate Enabled(sys: System, s: World, a: Action) {
    match a
    case ProducerPush => s.src != [] && |s.ring| < sys.capacity
    case MainJoinProducer => s.main == JoinProducer && s.src == []
    case MainPushPill => s.main == PushPill && |s.ring| < sys.capacity
    case MainPillTimeout => s.main == PushPill
    case MainSeesEngineDone => s.main == AwaitEngine && s.engine.Done?
    case MainDrainTimeout => s.main == AwaitEngine
    case MainStopEngine => s.main == StopEngine
    case MainJoinEngine => s.main == JoinEngine && s.engine.Done?
    case MainStopDispatcher => s.main == StopDispatcher
    case MainJoinDispatcher => s.main == JoinDispatcher && s.dispatcher == Exited
    // the running flag may fall between the loop's test and the look at the ring
    case EnginePop => s.engine == Polling && s.ring != []
    case EngineDispatch => s.engine.Dispatching? && s.engine.pending != []
    case EngineNext => s.engine == Dispatching([])
    case EngineSeesEmpty => s.engine == Polling && s.ring == [] && s.drain
    case EngineDrained => s.engine == SawEmpty
    case EngineSeesStop => s.engine == Polling && !s.engineRunning
    case DispatcherStart => s.dispatcher == NotStarted
    case DispatcherTake => s.dispatcher == Waiting && s.queue != []
    case DispatcherHandle(_, works) => s.dispatcher.InHand? && |works| == sys.channelCount
    case DispatcherExit => s.dispatcher == Waiting && s.queue == [] && !s.dispatcherRunning
  }

  function Apply(sys: System, s: World, a: Action): World
    requires Enabled(sys, s, a)
  {
    match a
    case ProducerPush => s.(src := s.src[1..], ring := s.ring + [s.src[0]])
    case MainJoinProducer => s.(main := PushPill)
    case MainPushPill => s.(main := AwaitEngine, ring := s.ring + [PILL], pillPushed := true)
    case MainPillTimeout => s.(main := AwaitEngine)
    case MainSeesEngineDone => s.(main := StopEngine)
    case MainDrainTimeout => s.(main := StopEngine)
    case MainStopEngine => s.(main := JoinEngine, engineRunning := false)
    case MainJoinEngine => s.(main := StopDispatcher)
    case MainStopDispatcher => s.(main := JoinDispatcher, dispatcherRunning := false)
    case MainJoinDispatcher => s.(main := Finished)
    case EnginePop =>
      if s.ring[0].IsPill() then s.(ring := s.ring[1..], drain := true)
      else
        var (rules, alerts) := Scan(s.rules, s.ring[0]);
        s.(ring := s.ring[1..], rules := rules, engine := Dispatching(alerts))
    case EngineDispatch => s.(engine := Dispatching(s.engine.pending[1..]), queue := s.queue + [s.engine.pending[0]])
    case EngineNext => s.(engine := Polling)
    case EngineSeesEmpty => s.(engine := SawEmpty)
    case EngineDrained => s.(engine := Done(true))
    case EngineSeesStop => s.(engine := Done(false))
    case DispatcherStart => s.(dispatcher := Waiting, dispatcherRunning := true)
    case DispatcherTake => s.(dispatcher := InHand(s.queue[0]), queue := s.queue[1..])
    case DispatcherHandle(now, works) =>
      s.(dispatcher := Waiting, handled := s.handled + [Handled(Event(s.dispatcher.alert, now), works)])
    case DispatcherExit => s.(dispatcher := Exited)
  }

  /** A run: actions each enabled where the ones before it lead. */
  ghost predicate Feasible(sys: System, run: seq<Action>)
    decreases |run|, 0
  {
    run == [] || (Feasible(sys, run[..|run| - 1]) && Enabled(sys, After(sys, run[..|run| - 1]), run[|run| - 1]))
  }

  ghost function After(sys: System, run: seq<Action>): World
    requires Feasible(sys, run)
    decreases |run|, 1
  {
    if run == [] then Init(sys)
    else Apply(sys, After(sys, run[..|run| - 1]), run[|run| - 1])
  }

  // ---------------------------------------------------------------- what every step keeps

  /** The signals the engine has still to see, without the pill. */
  function Ahead(s: World): seq<Signal> {
    (if s.pillPushed && !s.drain && s.ring != [] then s.ring[..|s.ring| - 1] else s.ring) + s.src
  }

  function Pending(s: World): seq<Alert> {
    if s.engine.Dispatching? then s.engine.pending else []
  }

  function Hand(s: World): seq<Alert> {
    if s.dispatcher.InHand? then [s.dispatcher.alert] else []
  }

  /** Alerts already raised, oldest first. */
  function Raised(s: World): seq<Alert> {
    Alerts(s.handled) + Hand(s) + s.queue + Pending(s)
  }

  /** No alert is lost, made twice or moved: what was raised and what the remaining signals will
      raise is what the single-threaded program raises, in its order. */
  ghost predicate Conserved(sys: System, s: World) {
    ScanAll(sys.rules, sys.signals).1 == Raised(s) + ScanAll(s.rules, Ahead(s)).1
  }

  /** Where the pill is. */
  ghost predicate PillInPlace(s: World) {
    && (forall i :: 0 <= i < |s.src| ==> !s.src[i].IsPill())
    && (s.main in {JoinProducer, PushPill} ==> !s.pillPushed)
    && (s.main != JoinProducer ==> s.src == [])
    && (s.drain ==> s.pillPushed && s.ring == [])
    && (s.pillPushed && !s.drain ==> s.ring != [] && s.ring[|s.ring| - 1].IsPill())
    && (forall i :: 0 <= i < |s.ring| && s.ring[i].IsPill() ==> s.pillPushed && i == |s.ring| - 1)
  }

  predicate PastEngine(s: World) {
    s.main in {StopDispatcher, JoinDispatcher, Finished}
  }

  /** Which thread can be where. */
  ghost predicate Choreography(s: World) {
    && (s.engine == SawEmpty || s.engine == Done(true) ==> s.drain)
    && (!s.engineRunning ==> s.main in {JoinEngine, StopDispatcher, JoinDispatcher, Finished})
    && (s.engine == Done(false) ==> !s.engineRunning)
    && (PastEngine(s) ==> s.engine.Done?)
    && (s.dispatcher == NotStarted ==> !s.dispatcherRunning && s.handled == [])
    && (s.dispatcher != NotStarted && !s.dispatcherRunning ==> s.main in {JoinDispatcher, Finished})
    && (s.dispatcher == Exited ==> !s.dispatcherRunning && s.queue == [])
    && (s.main == Finished ==> s.dispatcher == Exited)
  }

  ghost predicate Inv(sys: System, s: World) {
    && Conserved(sys, s) && PillInPlace(s) && Choreography(s)
    && forall i :: 0 <= i < |s.handled| ==> |s.handled[i].works| == sys.channelCount
  }

  lemma PillStays(sys: System, s: World, a: Action)
    requires Inv(sys, s) && Enabled(sys, s, a)
    ensures PillInPlace(Apply(sys, s, a))
  {
    hide Scan, ScanAll, Conserved, Choreography, Signal.IsPill;
    var t := Apply(sys, s, a);
    match a
    case ProducerPush =>
      assert !s.src[0].IsPill();
    case MainPushPill =>
      PillIsPill();
    case EnginePop =>
      PillPopped(sys, s);
    case _ =>
      assert t.ring == s.ring && t.src == s.src && t.drain == s.drain && t.pillPushed == s.pillPushed;
  }

  lemma PillPopped(sys: System, s: World)
    requires Inv(sys, s) && Enabled(sys, s, EnginePop)
    ensures PillInPlace(Apply(sys, s, EnginePop))
  {
    hide Scan, ScanAll, Conserved, Choreography, Signal.IsPill;
    var t := Apply(sys, s, EnginePop);
    assert t.ring == s.ring[1..];
    assert s.ring[0].IsPill() ==> |s.ring| == 1;
  }

  lemma PillIsPill()
    ensures PILL.IsPill()
  {
  }

  lemma ChoreographyStays(sys: System, s: World, a: Action)
    requires Choreography(s) && Enabled(sys, s, a)
    ensures Choreography(Apply(sys, s, a))
  {
    hide Scan, Signal.IsPill;
  }

  lemma AheadKept(sys: System, s: World, a: Action)
    requires Inv(sys, s) && Enabled(sys, s, a) && (a == ProducerPush || a == MainPushPill)
    ensures Ahead(Apply(sys, s, a)) == Ahead(s)
  {
    hide Scan, ScanAll, Choreography, Signal.IsPill, Conserved;
    var t := Apply(sys, s, a);
    if a == ProducerPush {
      HandOnSignal(s.ring, s.src);
    } else {
      assert t.ring[..|t.ring| - 1] == s.ring && s.src == [];
    }
  }

  /** Steps that only hand on alerts or signals do not change what is raised or ahead. */
  lemma ConservedStays(sys: System, s: World, a: Action)
    requires Inv(sys, s) && Enabled(sys, s, a)
    ensures Conserved(sys, Apply(sys, s, a))
  {
    hide Scan, ScanAll, Choreography, Signal.IsPill, PillInPlace;
    var t := Apply(sys, s, a);
    match a
    case EnginePop =>
      PopConserves(sys, s);
    case ProducerPush =>
      AheadKept(sys, s, a);
    case MainPushPill =>
      AheadKept(sys, s, a);
    case EngineDispatch =>
      HandOnAlert(Alerts(s.handled) + Hand(s), s.queue, s.engine.pending);
    case DispatcherTake =>
      TakeAlert(Alerts(s.handled), s.queue);
    case DispatcherHandle(now, works) =>
      HandleTaken(s.handled, Handled(Event(s.dispatcher.alert, now), works));
    case _ =>
      assert Raised(t) == Raised(s) && Ahead(t) == Ahead(s);
  }

  lemma HandOnSignal(ring: seq<Signal>, src: seq<Signal>)
    requires src != []
    ensures ring + [src[0]] + src[1..] == ring + src
  {
  }

  lemma HandOnAlert(before: seq<Alert>, queue: seq<Alert>, pending: seq<Alert>)
    requires pending != []
    ensures before + (queue + [pending[0]]) + pending[1..] == before + queue + pending
  {
  }

  lemma TakeAlert(before: seq<Alert>, queue: seq<Alert>)
    requires queue != []
    ensures before + [queue[0]] + queue[1..] == before + [] + queue
  {
  }

  lemma HandleTaken(handled: seq<Handled>, h: Handled)
    ensures Alerts(handled + [h]) + [] == Alerts(handled) + [h.event.alert]
  {
  }

  lemma AheadPopped(sys: System, s: World)
    requires PillInPlace(s) && Enabled(sys, s, EnginePop) && !s.ring[0].IsPill()
    ensures Ahead(s) != [] && Ahead(s)[0] == s.ring[0]
    ensures Ahead(Apply(sys, s, EnginePop)) == Ahead(s)[1..]
  {
    hide Scan, Signal.IsPill;
    var n := |s.ring|;
    if s.pillPushed && !s.drain {
      assert n > 1;
      assert s.ring[1..][..n - 2] == s.ring[..n - 1][1..];
      FirstOff(s.ring[..n - 1], s.src);
    } else {
      FirstOff(s.ring, s.src);
    }
  }

  lemma FirstOff(a: seq<Signal>, b: seq<Signal>)
    requires a != []
    ensures a + b != [] && (a + b)[0] == a[0] && (a + b)[1..] == a[1..] + b
  {
  }

  lemma PopConserves(sys: System, s: World)
    requires Inv(sys, s) && Enabled(sys, s, EnginePop)
    ensures Conserved(sys, Apply(sys, s, EnginePop))
  {
    hide Scan, ScanAll, Choreography, Signal.IsPill;
    var t := Apply(sys, s, EnginePop);
    if s.ring[0].IsPill() {
      assert Ahead(t) == Ahead(s);
      assert Raised(t) == Raised(s);
    } else {
      AheadPopped(sys, s);
      ScanAllHead(s.rules, Ahead(s));
      Regroup(Raised(s), t.engine.pending, ScanAll(t.rules, Ahead(t)).1);
      assert Raised(t) == Raised(s) + t.engine.pending;
    }
  }

  lemma ScanAllHead(rules: seq<Rule>, signals: seq<Signal>)
    requires signals != []
    ensures ScanAll(rules, signals).1 == Scan(rules, signals[0]).1 + ScanAll(Scan(rules, signals[0]).0, signals[1..]).1
  {
    hide Scan;
  }

  lemma Regroup(a: seq<Alert>, b: seq<Alert>, c: seq<Alert>)
    ensures a + (b + c) == (a + b) + c
  {
  }

  lemma StepKeepsInv(sys: System, s: World, a: Action)
    requires Inv(sys, s) && Enabled(sys, s, a)
    ensures Inv(sys, Apply(sys, s, a))
  {
    hide Scan, ScanAll, Conserved, PillInPlace, Choreography, Signal.IsPill;
    PillStays(sys, s, a);
    ChoreographyStays(sys, s, a);
    ConservedStays(sys, s, a);
  }

  lemma {:induction false} RunKeepsInv(sys: System, run: seq<Action>)
    requires sys.Valid() && Feasible(sys, run)
    ensures Inv(sys, After(sys, run))
  {
    hide Scan, ScanAll;
    if run == [] {
      assert Ahead(Init(sys)) == sys.signals;
      assert Raised(Init(sys)) == [];
    } else {
      RunKeepsInv(sys, run[..|run| - 1]);
      StepKeepsInv(sys, After(sys, run[..|run| - 1]), run[|run| - 1]);
    }
  }

  // ---------------------------------------------------------------- what the channels get

  /** The alerts of the single-threaded program: every rule over every signal, in order. */
  function AllAlerts(sys: System): seq<Alert> {
    ScanAll(sys.rules, sys.signals).1
  }

  function Readings(handled: seq<Handled>): (c: seq<uint64>)
    ensures |c| == |handled|
  {
    seq(|handled|, i requires 0 <= i < |handled| => handled[i].event.now)
  }

  function Channels(sys: System, handled: seq<Handled>): (c: seq<Channel>)
    requires forall i :: 0 <= i < |handled| ==> |handled[i].works| == sys.channelCount
    ensures |c| == sys.channelCount
  {
    DeskAfter(sys.dedup, sys.maxWindow, sys.channelCount, handled).channels
  }

  /** At every moment of every run, timeouts or not, what was handled so far is an initial part
      of the single-threaded program's alerts: nothing is duplicated, reordered or skipped. */
  lemma HandledIsPrefix(sys: System, run: seq<Action>)
    requires sys.Valid() && Feasible(sys, run)
    ensures Alerts(After(sys, run).handled) <= AllAlerts(sys)
  {
    hide Scan, ScanAll;
    RunKeepsInv(sys, run);
    var s := After(sys, run);
    LeadingPart(Alerts(s.handled), Hand(s), s.queue, Pending(s), ScanAll(s.rules, Ahead(s)).1);
  }

  lemma LeadingPart(a: seq<Alert>, b: seq<Alert>, c: seq<Alert>, d: seq<Alert>, e: seq<Alert>)
    ensures a <= a + b + c + d + e
  {
  }

  /** A finished run has handled everything except what the signals still in the ring would have
      raised; so nothing is lost exactly when those raise nothing. */
  lemma FinishedAccounts(sys: System, run: seq<Action>)
    requires sys.Valid() && Feasible(sys, run) && After(sys, run).main == Finished
    ensures var s := After(sys, run);
            var left := ScanAll(s.rules, Ahead(s)).1;
            && AllAlerts(sys) == Alerts(s.handled) + left
            && (Alerts(s.handled) == AllAlerts(sys) <==> left == [])
            && (s.engine == Done(true) ==> left == [])
  {
    hide Scan, ScanAll;
    RunKeepsInv(sys, run);
    var s := After(sys, run);
    assert Raised(s) == Alerts(s.handled);
    if s.engine == Done(true) {
      assert Ahead(s) == [];
      NoSignalsNoAlerts(s.rules);
    }
  }

  lemma NoSignalsNoAlerts(rules: seq<Rule>)
    ensures ScanAll(rules, []).1 == []
  {
  }

  /** The drain theorem: when the engine left through its drain exit, the alerts handled are
      those of the single-threaded program, one for one; each channel was offered exactly the
      ones that program's deduplicator lets through on the same clock readings, and a channel
      that never throws received precisely that list. */
  lemma DrainedRunDelivers(sys: System, run: seq<Action>)
    requires sys.Valid() && Feasible(sys, run)
    requires After(sys, run).main == Finished && After(sys, run).engine == Done(true)
    ensures var handled := After(sys, run).handled;
            && |handled| == |AllAlerts(sys)|
            && (forall i :: 0 <= i < |handled| ==> |handled[i].works| == sys.channelCount)
            && var delivered := Surviving(sys.dedup, sys.maxWindow, Timed(AllAlerts(sys), Readings(handled)));
            forall c :: 0 <= c < sys.channelCount ==>
              && Channels(sys, handled)[c].sent + Channels(sys, handled)[c].failed == |delivered|
              && ((forall i :: 0 <= i < |handled| ==> handled[i].works[c])
                 ==> Channels(sys, handled)[c].received == delivered)
  {
    hide Scan, ScanAll, DeskAfter, Surviving;
    RunKeepsInv(sys, run);
    FinishedAccounts(sys, run);
    var handled := After(sys, run).handled;
    assert Events(handled) == Timed(AllAlerts(sys), Readings(handled)) by {
      assert forall i :: 0 <= i < |handled| ==> Alerts(handled)[i] == handled[i].event.alert;
    }
    BooksBalance(sys.dedup, sys.maxWindow, sys.channelCount, handled);
    forall c | 0 <= c < sys.channelCount && forall i :: 0 <= i < |handled| ==> handled[i].works[c]
      ensures Channels(sys, handled)[c].received == Surviving(sys.dedup, sys.maxWindow, Events(handled))
    {
      FaithfulChannel(sys.dedup, sys.maxWindow, sys.channelCount, handled, c);
    }
  }

  /** The alerts the engine has dispatched in a run, in order. */
  ghost function Dispatched(sys: System, run: seq<Action>): seq<Alert>
    requires Feasible(sys, run)
  {
    if run == [] then []
    else
      var q, a := run[..|run| - 1], run[|run| - 1];
      Dispatched(sys, q) + if a == EngineDispatch then [After(sys, q).engine.pending[0]] else []
  }

  lemma DispatchedStep(sys: System, s: World, a: Action)
    requires Enabled(sys, s, a)
    ensures var t := Apply(sys, s, a);
            Alerts(t.handled) + Hand(t) + t.queue ==
            Alerts(s.handled) + Hand(s) + s.queue + if a == EngineDispatch then [s.engine.pending[0]] else []
  {
    hide Scan, Signal.IsPill;
    var t := Apply(sys, s, a);
    match a
    case EngineDispatch =>
      assert t.queue == s.queue + [s.engine.pending[0]];
    case DispatcherTake =>
      TakeAlert(Alerts(s.handled), s.queue);
    case DispatcherHandle(now, works) =>
      HandleTaken(s.handled, Handled(Event(s.dispatcher.alert, now), works));
    case _ =>
      assert Alerts(t.handled) + Hand(t) + t.queue == Alerts(s.handled) + Hand(s) + s.queue;
  }

  /** Dispatcher books at every moment: what the engine dispatched is, oldest first, what was
      handled, what is in hand and what is queued; and what was handled was suppressed or offered
      to every channel, each of which accounts for all of it. */
  lemma {:induction false} DispatcherBooks(sys: System, run: seq<Action>)
    requires sys.Valid() && Feasible(sys, run)
    ensures var s := After(sys, run);
            && Dispatched(sys, run) == Alerts(s.handled) + Hand(s) + s.queue
            && (forall i :: 0 <= i < |s.handled| ==> |s.handled[i].works| == sys.channelCount)
            && var offered := |Surviving(sys.dedup, sys.maxWindow, Events(s.handled))|;
            var desk := DeskAfter(sys.dedup, sys.maxWindow, sys.channelCount, s.handled);
            && |Dispatched(sys, run)| == desk.suppressed + offered + |Hand(s)| + |s.queue|
            && forall c :: 0 <= c < sys.channelCount ==> desk.channels[c].sent + desk.channels[c].failed == offered
  {
    hide Apply, Enabled, Surviving, DeskAfter, Conserved, PillInPlace, Choreography;
    RunKeepsInv(sys, run);
    var s := After(sys, run);
    BooksBalance(sys.dedup, sys.maxWindow, sys.channelCount, s.handled);
    if run != [] {
      var q, a := run[..|run| - 1], run[|run| - 1];
      DispatcherBooks(sys, q);
      DispatchedStep(sys, After(sys, q), a);
      assert s == Apply(sys, After(sys, q), a);
    }
  }

  // ---------------------------------------------------------------- every run ends

  function EngineWork(e: EnginePc): nat {
    match e
    case Polling => 2
    case Dispatching(pending) => 3 * |pending| + 3
    case SawEmpty => 1
    case Done(_) => 0
  }

  function DispatcherWork(d: DispatcherPc): nat {
    match d
    case NotStarted => 2
    case Waiting => 1
    case InHand(_) => 2
    case Exited => 0
  }

  function MainWork(m: MainPc): nat {
    match m
    case JoinProducer => 28
    case PushPill => 24
    case AwaitEngine => 20
    case StopEngine => 16
    case JoinEngine => 12
    case StopDispatcher => 8
    case JoinDispatcher => 4
    case Finished => 0
  }

  /** Work left: signals to push and to evaluate, alerts to come, to queue and to handle. */
  function Work(s: World): nat {
    4 * |s.src| + 3 * |s.ring| + 4 * |ScanAll(s.rules, Ahead(s)).1| + 2 * |s.queue|
    + EngineWork(s.engine) + DispatcherWork(s.dispatcher) + MainWork(s.main)
  }

  lemma StepShrinksWork(sys: System, s: World, a: Action)
    requires Inv(sys, s) && Enabled(sys, s, a)
    ensures Work(Apply(sys, s, a)) < Work(s)
  {
    hide Scan, ScanAll, Choreography, Signal.IsPill, Conserved, PillInPlace;
    var t := Apply(sys, s, a);
    match a
    case EnginePop =>
      PopShrinksWork(sys, s);
    case ProducerPush =>
      AheadKept(sys, s, a);
    case MainPushPill =>
      AheadKept(sys, s, a);
    case _ =>
      assert Ahead(t) == Ahead(s);
  }

  lemma PopShrinksWork(sys: System, s: World)
    requires Inv(sys, s) && Enabled(sys, s, EnginePop)
    ensures Work(Apply(sys, s, EnginePop)) < Work(s)
  {
    hide Scan, ScanAll, Choreography, Signal.IsPill, Conserved;
    var t := Apply(sys, s, EnginePop);
    if s.ring[0].IsPill() {
      assert Ahead(t) == Ahead(s);
    } else {
      AheadPopped(sys, s);
      ScanAllHead(s.rules, Ahead(s));
    }
  }

  /** No interleaving goes on for ever: at most four steps per signal, four per alert, and 32
      for starting and stopping. */
  lemma {:induction false} RunsAreBounded(sys: System, run: seq<Action>)
    requires sys.Valid() && Feasible(sys, run)
    ensures |run| + Work(After(sys, run)) <= 4 * |sys.signals| + 4 * |AllAlerts(sys)| + 32
  {
    hide Scan, ScanAll, Work;
    if run == [] {
      WorkAtStart(sys);
    } else {
      var q := run[..|run| - 1];
      RunsAreBounded(sys, q);
      RunKeepsInv(sys, q);
      StepShrinksWork(sys, After(sys, q), run[|run| - 1]);
    }
  }

  lemma WorkAtStart(sys: System)
    ensures Work(Init(sys)) == 4 * |sys.signals| + 4 * |AllAlerts(sys)| + 32
  {
    hide Scan, ScanAll;
    assert Ahead(Init(sys)) == sys.signals;
  }

  // ---------------------------------------------------------------- and ends well

  predicate IsTimeout(a: Action) {
    a == MainPillTimeout || a == MainDrainTimeout
  }

  ghost predicate InTime(run: seq<Action>) {
    forall i :: 0 <= i < |run| ==> !IsTimeout(run[i])
  }

  /** What holds as long as no deadline has passed. */
  ghost predicate Patient(s: World) {
    && (s.main !in {JoinProducer, PushPill} ==> s.pillPushed)
    && (s.main !in {JoinProducer, PushPill, AwaitEngine} ==> s.engine == Done(true))
    && s.engine != Done(false)
  }

  lemma PatientStep(sys: System, s: World, a: Action)
    requires Choreography(s) && PillInPlace(s) && Patient(s) && Enabled(sys, s, a) && !IsTimeout(a)
    ensures Patient(Apply(sys, s, a))
  {
    hide Scan, Signal.IsPill;
  }

  lemma {:induction false} InTimeIsPatient(sys: System, run: seq<Action>)
    requires sys.Valid() && Feasible(sys, run) && InTime(run)
    ensures Patient(After(sys, run))
  {
    if run != [] {
      hide Apply, Enabled, Conserved, PillInPlace, Choreography, Patient;
      var q := run[..|run| - 1];
      InTimeIsPatient(sys, q);
      RunKeepsInv(sys, q);
      PatientStep(sys, After(sys, q), run[|run| - 1]);
    }
  }

  /** The dispatcher will never see the order to stop: it was given before run() set the flag. */
  ghost predicate Doomed(s: World) {
    s.main == JoinDispatcher && s.dispatcher != Exited && (s.dispatcher == NotStarted || s.dispatcherRunning)
  }

  /** The order the dispatcher needs: its thread is running before it is told to stop. */
  ghost predicate StartedFirst(run: seq<Action>) {
    forall i :: 0 <= i < |run| && run[i] == MainStopDispatcher ==> DispatcherStart in run[..i]
  }

  lemma NothingStopped()
    ensures StartedFirst([])
  {
  }

  lemma StartedFirstSnoc(run: seq<Action>)
    requires run != []
    ensures var q, a := run[..|run| - 1], run[|run| - 1];
            StartedFirst(run) <==> StartedFirst(q) && (a == MainStopDispatcher ==> DispatcherStart in q)
  {
    var n := |run| - 1;
    var q := run[..n];
    forall i | 0 <= i < n
      ensures q[..i] == run[..i]
    {
    }
    if StartedFirst(run) {
      forall i | 0 <= i < n && q[i] == MainStopDispatcher
        ensures DispatcherStart in q[..i]
      {
        assert run[i] == MainStopDispatcher;
      }
    }
  }

  lemma DoomedStep(sys: System, s: World, a: Action)
    requires Choreography(s) && Enabled(sys, s, a)
    ensures var t := Apply(sys, s, a);
            && (Doomed(t) <==> Doomed(s) || (a == MainStopDispatcher && s.dispatcher == NotStarted))
            && (t.dispatcher != NotStarted <==> s.dispatcher != NotStarted || a == DispatcherStart)
            && (t.main in {JoinDispatcher, Finished}
               <==> s.main in {JoinDispatcher, Finished} || a == MainStopDispatcher)
  {
    hide Scan, Signal.IsPill;
  }

  /** A run hangs exactly when the dispatcher was told to stop before its thread had begun. */
  lemma {:induction false} DoomedIffLate(sys: System, run: seq<Action>)
    requires sys.Valid() && Feasible(sys, run)
    ensures Doomed(After(sys, run)) <==> !StartedFirst(run)
    ensures After(sys, run).dispatcher != NotStarted <==> DispatcherStart in run
    ensures MainStopDispatcher in run <==> After(sys, run).main in {JoinDispatcher, Finished}
  {
    if run == [] {
      NothingStopped();
    } else {
      hide Apply, Enabled, Doomed, Conserved, PillInPlace, StartedFirst, Choreography;
      var q, a := run[..|run| - 1], run[|run| - 1];
      var s := After(sys, q);
      assert After(sys, run) == Apply(sys, s, a);
      DoomedIffLate(sys, q);
      RunKeepsInv(sys, q);
      DoomedStep(sys, s, a);
      StartedFirstSnoc(run);
      MemberSnoc(run, DispatcherStart);
      MemberSnoc(run, MainStopDispatcher);
    }
  }

  lemma MemberSnoc(run: seq<Action>, a: Action)
    requires run != []
    ensures a in run <==> a in run[..|run| - 1] || a == run[|run| - 1]
  {
    assert run == run[..|run| - 1] + [run[|run| - 1]];
  }

  /** A step that is no timeout and that some thread can take. */
  function NextAction(sys: System, s: World): Action {
    if s.main == JoinProducer && s.src == [] then MainJoinProducer
    else if s.main == JoinProducer && |s.ring| < sys.capacity then ProducerPush
    else if s.main == PushPill && |s.ring| < sys.capacity then MainPushPill
    else if s.main == StopEngine then MainStopEngine
    else if s.main == StopDispatcher then MainStopDispatcher
    else if s.main == JoinEngine then MainJoinEngine
    else if s.main == JoinDispatcher then
      if s.dispatcher == Exited then MainJoinDispatcher
      else if s.dispatcher.InHand? then DispatcherHandle(0, seq(sys.channelCount, _ => true))
      else if s.queue != [] then DispatcherTake
      else DispatcherExit
    else match s.engine
         case Done(_) => MainSeesEngineDone
         case SawEmpty => EngineDrained
         case Dispatching(pending) => if pending == [] then EngineNext else EngineDispatch
         case Polling => if s.ring != [] then EnginePop else EngineSeesEmpty
  }

  /** Until it is finished or doomed, a run whose deadlines hold can always go on. */
  lemma NeverStuck(sys: System, s: World)
    requires sys.Valid() && Inv(sys, s) && Patient(s) && s.main != Finished && !Doomed(s)
    ensures Enabled(sys, s, NextAction(sys, s)) && !IsTimeout(NextAction(sys, s))
  {
    hide Scan, ScanAll, Conserved, Signal.IsPill;
  }

  /** No thread can move except by running into a deadline. */
  ghost predicate Complete(sys: System, run: seq<Action>)
    requires Feasible(sys, run)
  {
    forall a :: Enabled(sys, After(sys, run), a) ==> IsTimeout(a)
  }

  /** Liveness and safety together: a complete run whose deadlines hold is finished, with every
      alert of the single-threaded program handled, if and only if the dispatcher thread had
      begun before it was told to stop. */
  lemma CompleteRunFinishes(sys: System, run: seq<Action>)
    requires sys.Valid() && Feasible(sys, run) && InTime(run) && Complete(sys, run)
    ensures After(sys, run).main == Finished <==> StartedFirst(run)
    ensures StartedFirst(run)
            ==> After(sys, run).engine == Done(true) && Alerts(After(sys, run).handled) == AllAlerts(sys)
  {
    hide Scan, ScanAll;
    var s := After(sys, run);
    RunKeepsInv(sys, run);
    InTimeIsPatient(sys, run);
    DoomedIffLate(sys, run);
    if s.main != Finished && !Doomed(s) {
      NeverStuck(sys, s);
    }
    if s.main == Finished {
      FinishedAccounts(sys, run);
    }
  }

  // ---------------------------------------------------------------- both endings happen

  lemma OneMore(sys: System, run: seq<Action>, a: Action)
    requires Feasible(sys, run) && Enabled(sys, After(sys, run), a)
    ensures Feasible(sys, run + [a]) && After(sys, run + [a]) == Apply(sys, After(sys, run), a)
  {
    hide Enabled, Apply;
    assert (run + [a])[..|run|] == run;
  }

  /** Going on from any timely run without a timeout ends with the main thread finished or waiting
      for a dispatcher that will never leave. */
  lemma {:induction false} Drive(sys: System, run: seq<Action>) returns (longer: seq<Action>)
    requires sys.Valid() && Feasible(sys, run) && InTime(run)
    ensures Feasible(sys, longer) && InTime(longer) && run <= longer
    ensures After(sys, longer).main == Finished || Doomed(After(sys, longer))
    ensures After(sys, run).dispatcher == NotStarted ==> After(sys, longer).dispatcher == NotStarted
    decreases Work(After(sys, run))
  {
    hide Feasible, After, Enabled, Apply, NextAction, Doomed, Inv, Patient, Work;
    var s := After(sys, run);
    longer := run;
    if s.main != Finished && !Doomed(s) {
      RunKeepsInv(sys, run);
      InTimeIsPatient(sys, run);
      NeverStuck(sys, s);
      var a := NextAction(sys, s);
      OneMore(sys, run, a);
      StepShrinksWork(sys, s, a);
      StaysUnstarted(sys, s, a);
      longer := Drive(sys, run + [a]);
    }
  }

  lemma StaysUnstarted(sys: System, s: World, a: Action)
    requires Enabled(sys, s, a) && a == NextAction(sys, s) && !Doomed(s)
    ensures s.dispatcher == NotStarted ==> Apply(sys, s, a).dispatcher == NotStarted
  {
    hide Scan;
  }

  /** Every system has a timely run that hangs: it is enough that the dispatcher's thread is slow
      to begin. */
  lemma EverySystemCanHang(sys: System) returns (run: seq<Action>)
    requires sys.Valid()
    ensures Feasible(sys, run) && InTime(run) && Doomed(After(sys, run)) && !StartedFirst(run)
  {
    run := Drive(sys, []);
    RunKeepsInv(sys, run);
    DoomedIffLate(sys, run);
  }

  /** And every system has a complete timely run that ends well. */
  lemma EverySystemCanFinish(sys: System) returns (run: seq<Action>)
    requires sys.Valid()
    ensures Feasible(sys, run) && InTime(run) && StartedFirst(run) && Complete(sys, run)
    ensures After(sys, run).main == Finished
  {
    OneMore(sys, [], DispatcherStart);
    assert [] + [DispatcherStart] == [DispatcherStart];
    run := Drive(sys, [DispatcherStart]);
    forall i | 0 <= i < |run| && run[i] == MainStopDispatcher
      ensures DispatcherStart in run[..i]
    {
      assert run[0] == DispatcherStart && i > 0;
      assert run[..i][0] == DispatcherStart;
    }
    DoomedIffLate(sys, run);
    RunKeepsInv(sys, run);
    FinishedIsComplete(sys, After(sys, run));
  }

  lemma FinishedIsComplete(sys: System, s: World)
    requires Inv(sys, s) && s.main == Finished
    ensures forall a :: Enabled(sys, s, a) ==> IsTimeout(a)
  {
    hide Conserved, Scan, ScanAll;
  }

  // ---------------------------------------------------------------- a forced stop loses alerts

  lemma {:induction false} PushFirst(sys: System, k: nat) returns (run: seq<Action>)
    requires k <= |sys.signals| <= sys.capacity
    ensures Feasible(sys, run)
    ensures After(sys, run) == Init(sys).(src := sys.signals[k..], ring := sys.signals[..k],
                                          dispatcher := Waiting, dispatcherRunning := true)
  {
    if k == 0 {
      run := [] + [DispatcherStart];
      OneMore(sys, [], DispatcherStart);
    } else {
      run := PushFirst(sys, k - 1);
      OneMore(sys, run, ProducerPush);
      run := run + [ProducerPush];
    }
  }

  /** When both deadlines pass before the engine has looked at the ring, a run finishes with
      nothing handled: every alert is lost. */
  lemma ForcedStopLosesAll(sys: System) returns (run: seq<Action>)
    requires |sys.signals| <= sys.capacity
    ensures Feasible(sys, run) && After(sys, run).main == Finished && After(sys, run).handled == []
  {
    hide Feasible, After, Scan;
    run := PushFirst(sys, |sys.signals|);
    run := GivenUp(sys, run);
    run := Extended(sys, run, MainJoinEngine);
    run := Extended(sys, run, MainStopDispatcher);
    run := Extended(sys, run, DispatcherExit);
    run := Extended(sys, run, MainJoinDispatcher);
  }

  /** Both deadlines pass and the engine sees that it was stopped. */
  lemma GivenUp(sys: System, run: seq<Action>) returns (longer: seq<Action>)
    requires Feasible(sys, run)
    requires var s := After(sys, run); s.main == JoinProducer && s.src == [] && s.engine == Polling
    ensures Feasible(sys, longer)
    ensures After(sys, longer) == After(sys, run).(main := JoinEngine, engineRunning := false, engine := Done(false))
  {
    hide Feasible, After, Scan;
    longer := Extended(sys, run, MainJoinProducer);
    longer := Extended(sys, longer, MainPillTimeout);
    longer := Extended(sys, longer, MainDrainTimeout);
    longer := Extended(sys, longer, MainStopEngine);
    longer := Extended(sys, longer, EngineSeesStop);
  }

  lemma Extended(sys: System, run: seq<Action>, a: Action) returns (longer: seq<Action>)
    requires Feasible(sys, run) && Enabled(sys, After(sys, run), a)
    ensures Feasible(sys, longer) && After(sys, longer) == Apply(sys, After(sys, run), a)
  {
    OneMore(sys, run, a);
    longer := run + [a];
  }
}
