/** The whole backtest: the poller's run feeds the pipeline's run (src/backtest/backtest_app.cpp). */
module BacktestRun {
  import opened Numbers
  import opened Hex
  import opened Signals
  import opened RiskEngine
  import opened AlertDispatcher
  import opened Pipeline
  import Deduplicator
  import EventSource
  import LargeTransferRule
  import BridgeTransferRule
  import MintBurnRule
  import OracleRule

  /** The settings a backtest runs with; the rule windows are those of the program. */
  const KNOWN_WINDOWS: map<string, uint64> :=
    map["large_transfer" := 60_000, "governance" := 3_600_000, "mint_burn" := 60_000,
        "approval" := 300_000, "bridge_transfer" := 60_000, "oracle_update" := 300_000]

  const DEDUP: Deduplicator.Config := Deduplicator.Config(60_000, KNOWN_WINDOWS, 100)
  const LONGEST_WINDOW: nat := 3_600_000
  const RING_SIZE: nat := 65536

  /** The pipeline a poller's run drives: one file channel. */
  function SystemOf(rules: seq<Rule>, cfg: EventSource.Config, chainId: uint64, answers: seq<EventSource.Rpc>): System {
    System(rules, EventSource.Pushed(cfg, chainId, answers), DEDUP, LONGEST_WINDOW, 1, RING_SIZE)
  }

  lemma SystemIsValid(rules: seq<Rule>, cfg: EventSource.Config, chainId: uint64, answers: seq<EventSource.Rpc>)
    ensures SystemOf(rules, cfg, chainId, answers).Valid()
  {
    EventSource.NoPillPushed(cfg, chainId, answers);
  }

  lemma WindowsAreKnown()
    ensures DEDUP.IsMaxWindow(LONGEST_WINDOW)
  {
    assert KNOWN_WINDOWS["governance"] == LONGEST_WINDOW;
  }

  /** The six rule types of the program have no bar, so no two of their alerts share a key
      unless customer, rule type, chain and token agree. */
  lemma ShippedKeysAreIdentities(a: Alert, b: Alert)
    requires a.ruleType in KNOWN_WINDOWS && b.ruleType in KNOWN_WINDOWS
    ensures Deduplicator.BuildKey(a) == Deduplicator.BuildKey(b)
            <==> Deduplicator.Identity(a) == Deduplicator.Identity(b)
  {
    hide *;
    ShippedTypeHasNoBar(a.ruleType);
    ShippedTypeHasNoBar(b.ruleType);
    Deduplicator.BarFreeKeys(a, b);
  }

  lemma ShippedTypeHasNoBar(ruleType: string)
    requires ruleType in KNOWN_WINDOWS
    ensures Deduplicator.NoBar(ruleType)
  {
    assert KNOWN_WINDOWS.Keys
            == {"large_transfer", "governance", "mint_burn", "approval", "bridge_transfer", "oracle_update"};
  }

  // ---------------------------------------------------------------- rule types

  ghost predicate KnownType(a: Alert) {
    a.ruleType in KNOWN_WINDOWS
  }

  /** The rules that are not modelled one by one keep to the rule types of the program, too. */
  ghost predicate Shipped(r: Rule) {
    r.Stateless? ==> forall s, a :: a in r.evaluation(s) ==> KnownType(a)
  }

  lemma {:induction false} TransferTypes(configs: seq<LargeTransferRule.RuleConfig>, evm: EvmLog, timestampMs: uint64)
    ensures forall a :: a in LargeTransferRule.Matching(configs, evm, timestampMs) ==> KnownType(a)
  {
    if configs != [] {
      TransferTypes(configs[..|configs| - 1], evm, timestampMs);
    }
  }

  lemma {:induction false} BridgeTypes(
    bucket: seq<BridgeTransferRule.RuleConfig>, evm: EvmLog, name: string, timestampMs: uint64)
    ensures forall a :: a in BridgeTransferRule.Matching(bucket, evm, name, timestampMs) ==> KnownType(a)
  {
    if bucket != [] {
      BridgeTypes(bucket[..|bucket| - 1], evm, name, timestampMs);
    }
  }

  lemma {:induction false} MintBurnTypes(bucket: seq<MintBurnRule.RuleConfig>, e: MintBurnEvent, timestampMs: uint64)
    ensures forall a :: a in MintBurnRule.Matching(bucket, e, timestampMs) ==> KnownType(a)
  {
    if bucket != [] {
      MintBurnTypes(bucket[..|bucket| - 1], e, timestampMs);
    }
  }

  lemma {:induction false} OracleTypes(
    bucket: seq<OracleRule.RuleConfig>, o: OracleEvent, timestampMs: uint64, p: nat, x: nat)
    requires p > 0
    ensures forall a :: a in OracleRule.SpikeAlerts(bucket, o, timestampMs, p, x) ==> KnownType(a)
  {
    if bucket != [] {
      OracleTypes(bucket[..|bucket| - 1], o, timestampMs, p, x);
    }
  }

  /** One evaluation raises alerts of known types only and leaves the rule a shipped one. */
  lemma EvaluationTypes(r: Rule, s: Signal)
    requires Shipped(r)
    ensures Shipped(Evaluate(r, s).0) && forall a :: a in Evaluate(r, s).1 ==> KnownType(a)
  {
    hide KnownType, LargeTransferRule.Matching, BridgeTransferRule.Matching, MintBurnRule.Matching,
        OracleRule.SpikeAlerts;
    match r
    case LargeTransfer(configs) =>
      if s.payload.EvmPayload? {
        TransferTypes(configs, s.payload.evm, s.meta.timestampMs);
      }
    case BridgeTransfer(all) =>
      if BridgeTransferRule.ToBridge(all, s)
          && BridgeTransferRule.RuleKey(s.payload.evm.chainId, s.payload.evm.address) in all.byKey {
        var evm := s.payload.evm;
        var name := BridgeTransferRule.NameOf(all, BridgeTransferRule.Receiver(evm));
        BridgeTypes(all.byKey[BridgeTransferRule.RuleKey(evm.chainId, evm.address)], evm, name, s.meta.timestampMs);
      }
    case MintBurns(all) =>
      if s.payload.MintBurnPayload? && MintBurnRule.EventKey(s.payload.mintBurn) in all {
        MintBurnTypes(all[MintBurnRule.EventKey(s.payload.mintBurn)], s.payload.mintBurn, s.meta.timestampMs);
      }
    case Oracle(feeds, last) =>
      if OracleRule.IsUpdate(s) {
        var o := s.payload.oracle;
        var key := OracleRule.KeyOf(o);
        if key in feeds && key in last && BE(last[key].answer) > 0 {
          OracleTypes(feeds[key], o, s.meta.timestampMs, BE(last[key].answer), BE(o.answer));
        }
      }
    case Stateless(_, evaluation) =>
  }

  lemma {:induction false} ScanTypes(rules: seq<Rule>, s: Signal)
    requires forall r :: r in rules ==> Shipped(r)
    ensures forall r :: r in Scan(rules, s).0 ==> Shipped(r)
    ensures forall a :: a in Scan(rules, s).1 ==> KnownType(a)
  {
    hide Evaluate, Shipped, KnownType, Wants;
    if rules != [] {
      var n := |rules| - 1;
      ScanTypes(rules[..n], s);
      EvaluationTypes(rules[n], s);
    }
  }

  lemma {:induction false} ScanAllTypes(rules: seq<Rule>, signals: seq<Signal>)
    requires forall r :: r in rules ==> Shipped(r)
    ensures forall a :: a in ScanAll(rules, signals).1 ==> KnownType(a)
    decreases |signals|
  {
    hide Scan, Shipped, KnownType;
    if signals != [] {
      ScanTypes(rules, signals[0]);
      ScanAllTypes(Scan(rules, signals[0]).0, signals[1..]);
    }
  }

  /** What a single-threaded backtest writes on the given clock readings: the alerts due by the
      documented rule. */
  ghost function DueOn(alerts: seq<Alert>, clock: seq<uint64>): seq<Alert>
    requires |alerts| == |clock|
  {
    Deduplicator.DueAlerts(DEDUP, Deduplicator.Timed(alerts, clock), |alerts|)
  }

  /** No reading falls back into the longest window of an alert already swept. */
  ghost predicate SafeClock(clock: seq<uint64>) {
    Deduplicator.ClockSafe(DEDUP, LONGEST_WINDOW, clock)
  }

  lemma SurvivorsAreDue(alerts: seq<Alert>, clock: seq<uint64>)
    requires |alerts| == |clock| && SafeClock(clock)
    requires forall a :: a in alerts ==> KnownType(a)
    ensures Surviving(DEDUP, LONGEST_WINDOW, Deduplicator.Timed(alerts, clock)) == DueOn(alerts, clock)
  {
    hide Surviving, Deduplicator.DueAlerts, Deduplicator.NoBar;
    var events := Deduplicator.Timed(alerts, clock);
    assert Deduplicator.Clock(events) == clock;
    forall i | 0 <= i < |events|
      ensures Deduplicator.NoBar(events[i].alert.ruleType)
    {
      assert KnownType(alerts[i]);
      ShippedTypeHasNoBar(alerts[i].ruleType);
    }
    WindowsAreKnown();
    SurvivingIsDue(DEDUP, LONGEST_WINDOW, events, |events|);
    assert events[..|events|] == events;
  }

  // ---------------------------------------------------------------- block time and system time

  /** The times the alerts carry: those of the blocks they come from. */
  function BlockTimes(alerts: seq<Alert>): (c: seq<uint64>)
    ensures |c| == |alerts|
  {
    seq(|alerts|, i requires 0 <= i < |alerts| => alerts[i].timestampMs)
  }

  /** On the readings c, every stream of alerts of the program from blocks of times d is written
      as a customer following those blocks would have received it. */
  ghost predicate WritesAsReceived(c: seq<uint64>, d: seq<uint64>)
    requires |c| == |d|
  {
    forall alerts: seq<Alert> ::
      |alerts| == |c| && BlockTimes(alerts) == d && (forall a :: a in alerts ==> KnownType(a)) ==>
        DueOn(alerts, c) == DueOn(alerts, d)
  }

  /** A rule type of the program with the given window. */
  lemma KnownRuleOf(window: uint64) returns (rule: string)
    requires Deduplicator.IsWindow(DEDUP, window)
    ensures rule in KNOWN_WINDOWS && KNOWN_WINDOWS[rule] == window
  {
    if r :| r in KNOWN_WINDOWS && KNOWN_WINDOWS[r] == window {
      rule := r;
    } else {
      rule := "large_transfer";
    }
  }

  /** A backtest's file is what its customers would have received, for every stream of alerts,
      exactly when any two system readings are within a window of each other just when the block
      times are. */
  lemma WritesAsReceivedIff(c: seq<uint64>, d: seq<uint64>)
    requires |c| == |d|
    ensures WritesAsReceived(c, d) <==> Deduplicator.SameReach(DEDUP, c, d)
  {
    hide Deduplicator.DueAlerts;
    if Deduplicator.SameReach(DEDUP, c, d) {
      forall alerts: seq<Alert> | |alerts| == |c|
        ensures DueOn(alerts, c) == DueOn(alerts, d)
      {
        Deduplicator.SameReachSameAlerts(DEDUP, alerts, c, d, |c|);
      }
    } else {
      var window: uint64, i: nat, j: nat :| Deduplicator.IsWindow(DEDUP, window) && i < j < |c|
          && !(Deduplicator.Within(c, i, j, window) <==> Deduplicator.Within(d, i, j, window));
      var rule := KnownRuleOf(window);
      Deduplicator.TwinsTellApart(DEDUP, rule, window, d, c, d, i, j);
      var alerts := Deduplicator.Twins(rule, d, i, j);
      assert BlockTimes(alerts) == d;
      assert forall a :: a in alerts ==> KnownType(a);
      assert DueOn(alerts, c) != DueOn(alerts, d);
    }
  }

  /** The difference is real: two large transfers of one token, two minutes apart on the chain,
      reach a customer both; a backtest that reads its clock twice within a minute writes one. */
  lemma SecondTransferMissing()
    ensures var alerts := Deduplicator.Twins("large_transfer", [0, 120_000], 0, 1);
            && BlockTimes(alerts) == [0, 120_000]
            && Deduplicator.Identity(alerts[0]) == Deduplicator.Identity(alerts[1])
            && DueOn(alerts, BlockTimes(alerts)) == alerts
            && DueOn(alerts, [0, 1]) == [alerts[0]]
  {
    var alerts := Deduplicator.Twins("large_transfer", [0, 120_000], 0, 1);
    assert BlockTimes(alerts) == [0, 120_000];
    TwoTransfers([0, 120_000]);
    TwoTransfers([0, 1]);
    assert [alerts[0]] + [alerts[1]] == alerts;
  }

  lemma TwoTransfers(clock: seq<uint64>)
    requires |clock| == 2
    ensures var alerts := Deduplicator.Twins("large_transfer", [0, 120_000], 0, 1);
            DueOn(alerts, clock) ==
            if Deduplicator.Within(clock, 0, 1, 60_000) then [alerts[0]] else [alerts[0]] + [alerts[1]]
  {
    hide Deduplicator.Due;
    var stamps: seq<uint64> := [0, 120_000];
    var alerts := Deduplicator.Twins("large_transfer", stamps, 0, 1);
    Deduplicator.TwinsDue(DEDUP, "large_transfer", stamps, clock, 0, 1, 0);
    Deduplicator.TwinsDue(DEDUP, "large_transfer", stamps, clock, 0, 1, 1);
    var events := Deduplicator.Timed(alerts, clock);
    assert Deduplicator.DueAlerts(DEDUP, events, 0) == [];
    assert Deduplicator.DueAlerts(DEDUP, events, 1) == [alerts[0]];
  }

  // ---------------------------------------------------------------- the documented windows

  /** The windows as the documentation lists them, in minutes; any other rule has one minute. */
  function DocumentedMinutes(rule: string): nat {
    match rule
    case "large_transfer" => 1
    case "governance" => 60
    case "mint_burn" => 1
    case "approval" => 5
    case "bridge_transfer" => 1
    case "oracle_update" => 5
    case _ => 1
  }

  /** Of two alerts that agree in all four fields, the second is written exactly when it was read
      at least the documented minutes of its rule type after the first. */
  lemma DocumentedWindows(rule: string, stamps: seq<uint64>, clock: seq<uint64>)
    requires |stamps| == |clock| == 2
    ensures var alerts := Deduplicator.Twins(rule, stamps, 0, 1);
            DueOn(alerts, clock) ==
            if clock[1] as int - clock[0] as int < DocumentedMinutes(rule) * 60_000 then [alerts[0]]
            else [alerts[0]] + [alerts[1]]
  {
    hide Deduplicator.Due;
    WindowsInMinutes(rule);
    var events := Deduplicator.Timed(Deduplicator.Twins(rule, stamps, 0, 1), clock);
    Deduplicator.TwinsDue(DEDUP, rule, stamps, clock, 0, 1, 0);
    Deduplicator.WindowDecides(DEDUP, rule, stamps, clock, 0, 1);
    assert Deduplicator.DueAlerts(DEDUP, events, 0) == [];
    assert Deduplicator.DueAlerts(DEDUP, events, 1) == [events[0].alert];
  }

  lemma WindowsInMinutes(rule: string)
    ensures (if rule in KNOWN_WINDOWS then KNOWN_WINDOWS[rule] else DEDUP.defaultWindowMs)
            == DocumentedMinutes(rule) * 60_000
  {
  }

  /** A backtest sweeps after every hundredth alert. */
  lemma SweepsEveryHundred(i: nat)
    ensures Deduplicator.SweepsAfter(DEDUP, i) <==> (i + 1) % 100 == 0
  {
    Deduplicator.SinceSweepIsModulo(DEDUP, i + 1);
  }

  /** A backtest of up to 65536 signals can lose them all to a forced stop. */
  lemma BacktestCanLoseAll(
    rules: seq<Rule>, cfg: EventSource.Config, chainId: uint64, answers: seq<EventSource.Rpc>)
    returns (run: seq<Action>)
    requires |EventSource.Pushed(cfg, chainId, answers)| <= 65536
    ensures var sys := SystemOf(rules, cfg, chainId, answers);
            Feasible(sys, run) && Pipeline.After(sys, run).main == Finished && Pipeline.After(sys, run).handled == []
  {
    hide EventSource.Pushed;
    run := ForcedStopLosesAll(SystemOf(rules, cfg, chainId, answers));
  }

  // ---------------------------------------------------------------- end to end

  /** From node to file. A poller that leaves by itself has fetched every block of the interval,
      in batches without gap or overlap; from a node that answers from one chain these hold the
      chain's logs from the first block to the last, in block order; on answers that do not break
      off, the signals are one for each of those logs, in order. If then no deadline passes and
      the dispatcher was up before it was told to stop, a complete run of the four threads ends,
      and on a safe clock the file holds exactly the alerts the rules raise over those signals,
      one thread and one signal at a time, less those with the same customer, rule type, chain
      and token as one already written within the window; on readings that reach like the block
      times, it is what the rule would keep by block time. */
  lemma BacktestDelivers(
    rules: seq<Rule>, cfg: EventSource.Config, chainId: uint64, answers: seq<EventSource.Rpc>,
    chain: nat -> seq<RawLog>, run: seq<Action>)
    requires forall r :: r in rules ==> Shipped(r)
    requires cfg.minBlockRange == EventSource.DEFAULT_MIN_RANGE && EventSource.Bounded(cfg, answers)
    requires EventSource.PastEnd(cfg, EventSource.After(cfg, chainId, answers))
    requires Feasible(SystemOf(rules, cfg, chainId, answers), run)
    requires InTime(run) && StartedFirst(run) && Complete(SystemOf(rules, cfg, chainId, answers), run)
    ensures var sys := SystemOf(rules, cfg, chainId, answers);
            var batches := EventSource.Batches(cfg, chainId, answers);
            var handled := Pipeline.After(sys, run).handled;
            && (forall block: nat :: EventSource.Covered(batches, block) <==>
                 cfg.startBlock <= block <= cfg.backtestEndBlock)
            && ((forall i :: 0 <= i < |answers| ==> EventSource.AnswersFrom(chain, answers[i])) ==>
                 EventSource.LogsOf(batches) == EventSource.ChainLogs(chain, cfg.startBlock, cfg.backtestEndBlock + 1))
            && (Unbroken(cfg, chainId, answers) ==> EventSource.Carries(chainId, batches, sys.signals))
            && |handled| == |AllAlerts(sys)|
            && (forall i :: 0 <= i < |handled| ==> |handled[i].works| == 1)
            && ((forall i :: 0 <= i < |handled| ==> handled[i].works[0]) ==>
                 var received := Channels(sys, handled)[0].received;
                 && received == Surviving(DEDUP, LONGEST_WINDOW, Deduplicator.Timed(AllAlerts(sys), Readings(handled)))
                 && (SafeClock(Readings(handled)) ==> received == DueOn(AllAlerts(sys), Readings(handled)))
                 && (SafeClock(Readings(handled)) && ReachesLikeBlocks(AllAlerts(sys), Readings(handled))
                    ==> received == DueOn(AllAlerts(sys), BlockTimes(AllAlerts(sys)))))
  {
    hide EventSource.After, EventSource.Pushed, EventSource.Batches, EventSource.PastEnd, EventSource.Covered,
      EventSource.Carries, EventSource.BreaksOffAt, Scan, ScanAll, Surviving, DeskAfter, DueOn, KnownType,
      SafeClock, EventSource.AnswersFrom, EventSource.LogsOf, EventSource.ChainLogs, ReachesLikeBlocks;
    var sys := SystemOf(rules, cfg, chainId, answers);
    SystemIsValid(rules, cfg, chainId, answers);
    forall block: nat
      ensures EventSource.Covered(EventSource.Batches(cfg, chainId, answers), block) <==>
              cfg.startBlock <= block <= cfg.backtestEndBlock
    {
      EventSource.BacktestCovers(cfg, chainId, answers, block);
    }
    if Unbroken(cfg, chainId, answers) {
      EventSource.UnbrokenRunCarries(cfg, chainId, answers);
    }
    if forall i :: 0 <= i < |answers| ==> EventSource.AnswersFrom(chain, answers[i]) {
      EventSource.BacktestReadsChain(cfg, chainId, answers, chain);
    }
    CompleteRunFinishes(sys, run);
    DrainedRunDelivers(sys, run);
    ScanAllTypes(rules, sys.signals);
    var clock := Readings(Pipeline.After(sys, run).handled);
    if SafeClock(clock) {
      SurvivorsAreDue(AllAlerts(sys), clock);
      if ReachesLikeBlocks(AllAlerts(sys), clock) {
        SameFileAsBlocks(AllAlerts(sys), clock);
      }
    }
  }

  /** The readings are within a window of each other just when the alerts' blocks are. */
  ghost predicate ReachesLikeBlocks(alerts: seq<Alert>, clock: seq<uint64>)
    requires |alerts| == |clock|
  {
    Deduplicator.SameReach(DEDUP, clock, BlockTimes(alerts))
  }

  lemma SameFileAsBlocks(alerts: seq<Alert>, clock: seq<uint64>)
    requires |alerts| == |clock| && ReachesLikeBlocks(alerts, clock)
    ensures DueOn(alerts, clock) == DueOn(alerts, BlockTimes(alerts))
  {
    hide Deduplicator.DueAlerts;
    Deduplicator.SameReachSameAlerts(DEDUP, alerts, clock, BlockTimes(alerts), |alerts|);
  }

  /** There are such runs: against a node that serves single blocks, a backtest given enough
      answers gets past its end, and its pipeline can then run to a good end in time. */
  lemma HealthyBacktestDelivers(
    rules: seq<Rule>, cfg: EventSource.Config, chainId: uint64, answers: seq<EventSource.Rpc>)
    returns (run: seq<Action>)
    requires cfg.minBlockRange == EventSource.DEFAULT_MIN_RANGE && cfg.backtestEndBlock != 0
    requires EventSource.Bounded(cfg, answers) && |answers| >= EventSource.Remaining(cfg, EventSource.Initial(cfg))
    requires forall i :: 0 <= i < |answers| ==> EventSource.Healthy(cfg, chainId, answers[i])
    ensures EventSource.PastEnd(cfg, EventSource.After(cfg, chainId, answers))
    ensures Feasible(SystemOf(rules, cfg, chainId, answers), run)
    ensures InTime(run) && StartedFirst(run) && Complete(SystemOf(rules, cfg, chainId, answers), run)
  {
    hide EventSource.After, EventSource.Healthy, EventSource.Pushed;
    EventSource.HealthyBacktestFinishes(cfg, chainId, answers);
    SystemIsValid(rules, cfg, chainId, answers);
    run := EverySystemCanFinish(SystemOf(rules, cfg, chainId, answers));
  }

  /** No answer of the node breaks off after a readable log. */
  ghost predicate Unbroken(cfg: EventSource.Config, chainId: uint64, answers: seq<EventSource.Rpc>) {
    forall i :: 0 <= i < |answers| ==> !EventSource.BreaksOffAt(cfg, chainId, answers, i)
  }
}
