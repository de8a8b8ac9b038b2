/** What the engine raises, rule by rule: the alerts of any run of any set of rules, written out
    from what each rule is about, and which logs reach which rule. */
module EngineMeanings {
  import opened Results
  import opened Numbers
  import opened Hex
  import opened Signals
  import opened Topics
  import opened Normalize
  import opened Kinds
  import opened BacktestConfig
  import opened Thresholds
  import opened Meanings
  import opened RiskEngine
  import LargeTransferRule
  import BridgeTransferRule
  import MintBurnRule
  import OracleRule

  // ---------------------------------------------------------------- any run of any rules

  /** No rule remembers anything yet. */
  predicate Fresh(rules: seq<Rule>) {
    forall k :: 0 <= k < |rules| && rules[k].Oracle? ==> rules[k].last == map[]
  }

  /** The mask has the bit of the signal type. */
  predicate Asks(mask: bv32, kind: SignalType) {
    mask & ((1 as bv32) << TypeIndex(kind)) != 0
  }

  /** What a rule raises on the last signal of a run. The oracle rule compares it with the latest
      usable answer of the whole run before. */
  function RaisedLast(r: Rule, signals: seq<Signal>): seq<Alert>
    requires signals != []
  {
    var n := |signals| - 1;
    var s := signals[n];
    match r
    case LargeTransfer(configs) => if s.kind == Transfer then LargeTransferRule.AlertsFor(configs, s) else []
    case BridgeTransfer(all) => if s.kind == Transfer then BridgeTransferRule.AlertsFor(all, s) else []
    case MintBurns(all) => if s.kind == SignalType.MintBurn then MintBurnRule.AlertsFor(all, s) else []
    case Oracle(feeds, _) => if s.kind == OracleUpdate then OracleRule.AlertsAt(feeds, signals, n) else []
    case Stateless(mask, evaluation) => if Asks(mask, s.kind) then evaluation(s) else []
  }

  /** All rules on the last signal, in registration order. */
  function AllRaisedLast(rules: seq<Rule>, signals: seq<Signal>): seq<Alert>
    requires signals != []
  {
    if rules == [] then []
    else AllRaisedLast(rules[..|rules| - 1], signals) + RaisedLast(rules[|rules| - 1], signals)
  }

  /** All rules over the run, signal by signal. */
  function AllRaised(rules: seq<Rule>, signals: seq<Signal>): seq<Alert> {
    if signals == [] then []
    else AllRaised(rules, signals[..|signals| - 1]) + AllRaisedLast(rules, signals)
  }

  /** What a rule is after a run: the oracle rule has its latest usable answers, every other rule
      is what it was. */
  function RuleAfter(r: Rule, signals: seq<Signal>): Rule {
    match r
    case Oracle(feeds, _) => Oracle(feeds, OracleRule.MemoryAfter(feeds, signals))
    case _ => r
  }

  function RulesAfter(rules: seq<Rule>, signals: seq<Signal>): (r: seq<Rule>)
    ensures |r| == |rules|
  {
    seq(|rules|, k requires 0 <= k < |rules| => RuleAfter(rules[k], signals))
  }

  lemma {:induction false} ScanAllSnoc(rules: seq<Rule>, signals: seq<Signal>, s: Signal)
    ensures var (after, alerts) := ScanAll(rules, signals);
            ScanAll(rules, signals + [s]) == (Scan(after, s).0, alerts + Scan(after, s).1)
    decreases |signals|
  {
    hide Scan;
    if signals != [] {
      var (next, first) := Scan(rules, signals[0]);
      var (after, middle) := ScanAll(next, signals[1..]);
      ScanAllSnoc(next, signals[1..], s);
      assert (signals + [s])[1..] == signals[1..] + [s];
      assert first + (middle + Scan(after, s).1) == (first + middle) + Scan(after, s).1;
    } else {
      assert signals + [s] == [s] && [s][1..] == [];
      assert ScanAll(Scan(rules, s).0, []) == (Scan(rules, s).0, []);
      assert Scan(rules, s).1 + [] == Scan(rules, s).1 == [] + Scan(rules, s).1;
    }
  }

  /** One rule on the last signal, whatever the rule. */
  lemma RuleOnLast(r: Rule, signals: seq<Signal>)
    requires signals != []
    ensures var q, s := signals[..|signals| - 1], signals[|signals| - 1];
            var before := RuleAfter(r, q);
            if Wants(before, TypeIndex(s.kind)) then
              Evaluate(before, s) == (RuleAfter(r, signals), RaisedLast(r, signals))
            else before == RuleAfter(r, signals) && RaisedLast(r, signals) == []
  {
    var s := signals[|signals| - 1];
    WantsMeaning(RuleAfter(r, signals[..|signals| - 1]), s.kind);
    hide Wants, Asks, TypeIndex, LargeTransferRule.AlertsFor, BridgeTransferRule.AlertsFor, MintBurnRule.AlertsFor,
      OracleRule.AlertsFor, OracleRule.MemoryAfter, OracleRule.AlertsAt, OracleRule.NextMemory;
    match r
    case Oracle(feeds, _) => OracleOnLast(feeds, signals);
    case _ =>
  }

  lemma OracleOnLast(feeds: OracleRule.Configs, signals: seq<Signal>)
    requires signals != []
    ensures var n := |signals| - 1;
            var before, s := OracleRule.MemoryAfter(feeds, signals[..n]), signals[n];
            && OracleRule.MemoryAfter(feeds, signals) == OracleRule.NextMemory(feeds, before, s)
            && OracleRule.AlertsAt(feeds, signals, n) == OracleRule.AlertsFor(feeds, before, s)
            && (s.kind != OracleUpdate ==> OracleRule.NextMemory(feeds, before, s) == before)
  {
    hide OracleRule.AlertsFor;
  }

  /** Which signals a rule asked for. */
  lemma WantsMeaning(r: Rule, kind: SignalType)
    ensures Wants(r, TypeIndex(kind)) <==>
            match r
            case LargeTransfer(_) => kind == Transfer
            case BridgeTransfer(_) => kind == Transfer
            case MintBurns(_) => kind == SignalType.MintBurn
            case Oracle(_, _) => kind == OracleUpdate
            case Stateless(mask, _) => Asks(mask, kind)
  {
    OneInterest(Transfer, TypeIndex(kind));
    OneInterest(SignalType.MintBurn, TypeIndex(kind));
    OneInterest(OracleUpdate, TypeIndex(kind));
    IndicesDiffer(kind);
    hide MakeMask;
  }

  /** No two signal types share a row of the table. */
  lemma IndicesDiffer(t: SignalType)
    ensures forall u: SignalType :: TypeIndex(t) == TypeIndex(u) <==> t == u
  {
  }

  lemma {:induction false} ScanOnLast(rules: seq<Rule>, signals: seq<Signal>)
    requires signals != []
    ensures Scan(RulesAfter(rules, signals[..|signals| - 1]), signals[|signals| - 1])
            == (RulesAfter(rules, signals), AllRaisedLast(rules, signals))
  {
    hide RuleAfter, RaisedLast, Wants, Evaluate;
    var before, after := RulesAfter(rules, signals[..|signals| - 1]), RulesAfter(rules, signals);
    if rules != [] {
      var n := |rules| - 1;
      ScanOnLast(rules[..n], signals);
      RuleOnLast(rules[n], signals);
      assert before[..n] == RulesAfter(rules[..n], signals[..|signals| - 1]);
      assert after == RulesAfter(rules[..n], signals) + [after[n]];
      assert before[n] == RuleAfter(rules[n], signals[..|signals| - 1]) && after[n] == RuleAfter(rules[n], signals);
      var alerts := AllRaisedLast(rules[..n], signals);
      assert alerts + [] == alerts;
    } else {
      assert before == [] == after;
    }
  }

  /** The engine's whole run, from what each rule is about: every rule raises on each signal what
      its own history of signals says, in registration order, and remembers that history. */
  lemma {:induction false} EngineRaises(rules: seq<Rule>, signals: seq<Signal>)
    requires Fresh(rules)
    ensures ScanAll(rules, signals) == (RulesAfter(rules, signals), AllRaised(rules, signals))
  {
    if signals == [] {
      FreshStart(rules);
    } else {
      hide Scan, RulesAfter, AllRaisedLast, ScanAll;
      var n := |signals| - 1;
      EngineRaises(rules, signals[..n]);
      ScanAllSnoc(rules, signals[..n], signals[n]);
      assert signals[..n] + [signals[n]] == signals;
      ScanOnLast(rules, signals);
    }
  }

  lemma FreshStart(rules: seq<Rule>)
    requires Fresh(rules)
    ensures RulesAfter(rules, []) == rules
  {
  }

  /** The alerts of an oracle rule over a run, signal by signal. */
  function OracleRaised(feeds: OracleRule.Configs, signals: seq<Signal>, n: nat): seq<Alert>
    requires n <= |signals|
  {
    if n == 0 then [] else OracleRaised(feeds, signals, n - 1) + OracleRule.AlertsAt(feeds, signals, n - 1)
  }

  /** An engine with an oracle rule alone: it remembers the latest usable answers, and raises what
      the rule's trace theorems speak of. */
  lemma {:induction false} OracleAlone(feeds: OracleRule.Configs, signals: seq<Signal>)
    ensures ScanAll([Oracle(feeds, map[])], signals).0 == [Oracle(feeds, OracleRule.MemoryAfter(feeds, signals))]
    ensures ScanAll([Oracle(feeds, map[])], signals).1 == OracleRaised(feeds, signals, |signals|)
  {
    var rules := [Oracle(feeds, map[])];
    EngineRaises(rules, signals);
    OracleAloneRaises(feeds, signals, |signals|);
    assert signals[..|signals|] == signals;
    assert RulesAfter(rules, signals)[0] == Oracle(feeds, OracleRule.MemoryAfter(feeds, signals));
  }

  lemma {:induction false} OracleAloneRaises(feeds: OracleRule.Configs, signals: seq<Signal>, n: nat)
    requires n <= |signals|
    ensures AllRaised([Oracle(feeds, map[])], signals[..n]) == OracleRaised(feeds, signals, n)
    decreases n
  {
    if n == 0 {
      assert signals[..0] == [];
    } else {
      hide OracleRule.AlertsAt, OracleRaised, AllRaisedLast, RaisedLast;
      var r := Oracle(feeds, map[]);
      OracleAloneRaises(feeds, signals, n - 1);
      assert signals[..n][..n - 1] == signals[..n - 1];
      AloneOnLast(r, signals[..n]);
      OracleOnLastOf(feeds, signals, n);
      OneMoreRaised(feeds, signals, n);
    }
  }

  lemma AloneOnLast(r: Rule, signals: seq<Signal>)
    requires signals != []
    ensures AllRaisedLast([r], signals) == RaisedLast(r, signals)
  {
    hide RaisedLast;
    assert [r][..0] == [];
    assert AllRaisedLast([], signals) == [];
    assert [] + RaisedLast(r, signals) == RaisedLast(r, signals);
  }

  lemma OracleOnLastOf(feeds: OracleRule.Configs, signals: seq<Signal>, n: nat)
    requires 0 < n <= |signals|
    ensures RaisedLast(Oracle(feeds, map[]), signals[..n]) == OracleRule.AlertsAt(feeds, signals, n - 1)
  {
    hide OracleRule.AlertsAt;
    SilentKind(feeds, signals, n - 1);
  }

  lemma OneMoreRaised(feeds: OracleRule.Configs, signals: seq<Signal>, n: nat)
    requires 0 < n <= |signals|
    ensures OracleRaised(feeds, signals, n)
            == OracleRaised(feeds, signals, n - 1) + OracleRule.AlertsAt(feeds, signals, n - 1)
  {
  }

  lemma SilentKind(feeds: OracleRule.Configs, signals: seq<Signal>, i: nat)
    requires i < |signals|
    ensures signals[i].kind != OracleUpdate ==> OracleRule.AlertsAt(feeds, signals, i) == []
    ensures OracleRule.AlertsAt(feeds, signals[..i + 1], i) == OracleRule.AlertsAt(feeds, signals, i)
  {
    assert signals[..i + 1][..i] == signals[..i];
  }

  // ---------------------------------------------------------------- from the log to the alert

  /** What an engine with one rule, whatever it remembers, raises on one signal. */
  function RaisedBy(r: Rule, s: Signal): seq<Alert> {
    Scan([r], s).1
  }

  lemma AloneIsEvaluated(r: Rule, s: Signal)
    ensures RaisedBy(r, s) == if Wants(r, TypeIndex(s.kind)) then Evaluate(r, s).1 else []
  {
    assert [r][..0] == [];
    hide Wants, Evaluate;
    assert Scan([r][..0], s) == ([], []);
  }

  /** A rule of each kind on its own signals, and silence on all others. */
  lemma RaisedByKind(r: Rule, s: Signal)
    ensures match r
            case LargeTransfer(configs) =>
              RaisedBy(r, s) == if s.kind == Transfer then LargeTransferRule.AlertsFor(configs, s) else []
            case BridgeTransfer(all) =>
              RaisedBy(r, s) == if s.kind == Transfer then BridgeTransferRule.AlertsFor(all, s) else []
            case MintBurns(all) =>
              RaisedBy(r, s) == if s.kind == SignalType.MintBurn then MintBurnRule.AlertsFor(all, s) else []
            case Oracle(feeds, last) =>
              RaisedBy(r, s) == if s.kind == OracleUpdate then OracleRule.AlertsFor(feeds, last, s) else []
            case Stateless(mask, evaluation) =>
              RaisedBy(r, s) == if Asks(mask, s.kind) then evaluation(s) else []
  {
    AloneIsEvaluated(r, s);
    WantsMeaning(r, s.kind);
    hide Wants, Asks, RaisedBy, LargeTransferRule.AlertsFor, BridgeTransferRule.AlertsFor, MintBurnRule.AlertsFor,
      OracleRule.AlertsFor;
  }

  /** The engine on a Transfer log: the transfer and bridge rules raise what the texts deserve if
      both parties are there, the mint and burn rule if exactly one is. */
  lemma EngineOnTransfer(
    transfers: seq<ThresholdItem>, bridges: seq<ThresholdItem>, contracts: seq<MintBurnItem>,
    all: BridgeTransferRule.Configs,
    raw: RawLog, chainId: uint64, timestampMs: uint64, stale: Word)
    requires TransferLog(raw) && Normalized(raw, chainId, timestampMs, stale).Success?
    requires ParseAll(transfers, LargeTransferOf).Success? && MintBurnIndex(contracts).Success?
    requires BridgeIndex(bridges).Success? && all.byKey == BridgeIndex(bridges).value
    ensures var s := Normalized(raw, chainId, timestampMs, stale).value;
            var whole := !raw.removed && |raw.data| <= 2 + 2 * MAX_DATA;
            var from, to := FromNumber(raw) != 0, ToNumber(raw) != 0;
            && RaisedBy(LargeTransfer(ParseAll(transfers, LargeTransferOf).value), s) ==
               (if from && to && whole then DeservedTransfers(transfers, raw, chainId, timestampMs) else [])
            && RaisedBy(BridgeTransfer(all), s) ==
               (if from && to && whole && ReceiverOf(raw, chainId) in all.bridges then
                  var key := ReceiverOf(raw, chainId);
                  var name := if key in all.names then all.names[key] else "unknown bridge";
                  DeservedBridges(bridges, raw, name, chainId, timestampMs)
                else [])
            && RaisedBy(MintBurns(MintBurnIndex(contracts).value), s) ==
               (if from == to then [] else DeservedMintBurns(contracts, raw, chainId, timestampMs, !from))
  {
    hide Normalized, RaisedBy, ParseAll, BuildIndex, DeservedTransfers, DeservedBridges, DeservedMintBurns, TransferLog,
      LargeTransferRule.AlertsFor, BridgeTransferRule.AlertsFor, MintBurnRule.AlertsFor, ReceiverOf;
    var s := Normalized(raw, chainId, timestampMs, stale).value;
    RaisedByKind(LargeTransfer(ParseAll(transfers, LargeTransferOf).value), s);
    RaisedByKind(BridgeTransfer(all), s);
    RaisedByKind(MintBurns(MintBurnIndex(contracts).value), s);
    TransferKind(raw, chainId, timestampMs, stale);
    BridgeMeaning(bridges, all, raw, chainId, timestampMs, stale);
    MintBurnMeaning(contracts, raw, chainId, timestampMs, stale);
    if FromNumber(raw) != 0 && ToNumber(raw) != 0 {
      LargeTransferMeaning(transfers, raw, chainId, timestampMs, stale);
    }
  }

  lemma TransferKind(raw: RawLog, chainId: uint64, timestampMs: uint64, stale: Word)
    requires TransferLog(raw) && Normalized(raw, chainId, timestampMs, stale).Success?
    ensures Normalized(raw, chainId, timestampMs, stale).value.kind ==
            if FromNumber(raw) != 0 && ToNumber(raw) != 0 then Transfer else SignalType.MintBurn
  {
    hide ReadLog, Interpret;
    TransferClassified(raw, chainId, timestampMs, stale);
  }

  /** The engine on an AnswerUpdated log, for a rule that remembers anything. */
  lemma EngineOnAnswer(
    items: seq<OracleItem>, last: OracleRule.Memory, raw: RawLog, chainId: uint64, timestampMs: uint64, stale: Word)
    requires AnswerLog(raw) && Normalized(raw, chainId, timestampMs, stale).Success? && OracleIndex(items).Success?
    ensures var s := Normalized(raw, chainId, timestampMs, stale).value;
            var feed, x := FeedOfLog(raw, chainId), SignedNumber(raw.topics[1]);
            RaisedBy(Oracle(OracleIndex(items).value, last), s) ==
            if 0 <= x < TWO_64 && feed in last && BE(last[feed].answer) > 0
            then DeservedSpikes(items, raw, chainId, timestampMs, BE(last[feed].answer), x) else []
  {
    hide Normalized, RaisedBy, ParseAll, BuildIndex, DeservedSpikes, OracleRule.AlertsFor, OracleRule.NextMemory, BE;
    var s := Normalized(raw, chainId, timestampMs, stale).value;
    RaisedByKind(Oracle(OracleIndex(items).value, last), s);
    OracleMeaning(items, last, raw, chainId, timestampMs, stale);
    AnswerClassified(raw, chainId, timestampMs, stale);
  }

  /** A log with another signature, or none, reaches none of these rules: it raises nothing,
      whatever its other topics and its data say. */
  lemma OtherLogsAreSilent(r: Rule, raw: RawLog, chainId: uint64, timestampMs: uint64, stale: Word)
    requires Readable(raw) && Normalized(raw, chainId, timestampMs, stale).Success?
    ensures var s := Normalized(raw, chainId, timestampMs, stale).value;
            && (raw.topics == [] || SignatureOf(raw) != TOPIC_TRANSFER ==>
                 (r.LargeTransfer? || r.BridgeTransfer? || r.MintBurns? ==> RaisedBy(r, s) == []))
            && (raw.topics == [] || SignatureOf(raw) != TOPIC_ORACLE_ANSWER_UPDATED ==>
                 (r.Oracle? ==> RaisedBy(r, s) == []))
  {
    hide Normalized, RaisedBy, Readable, Slot;
    var s := Normalized(raw, chainId, timestampMs, stale).value;
    RaisedByKind(r, s);
    KindMeaning(raw, chainId, timestampMs, stale);
  }

  /** A transfer or bridge alert needs a whole Transfer log: its signature, both parties, a slot of
      data, no more data than is kept, and not withdrawn. A mint or burn alert and an oracle alert
      need their signature, two topics more and a slot of data. */
  lemma AlertsNeedWholeLogs(r: Rule, raw: RawLog, chainId: uint64, timestampMs: uint64, stale: Word)
    requires Readable(raw) && Normalized(raw, chainId, timestampMs, stale).Success?
    requires RaisedBy(r, Normalized(raw, chainId, timestampMs, stale).value) != [] && !r.Stateless?
    ensures |raw.topics| >= 3 && |raw.data| >= 66
    ensures SignatureOf(raw) == if r.Oracle? then TOPIC_ORACLE_ANSWER_UPDATED else TOPIC_TRANSFER
    ensures r.LargeTransfer? || r.BridgeTransfer? ==> !raw.removed && |raw.data| <= 514
  {
    var s := Normalized(raw, chainId, timestampMs, stale).value;
    OtherLogsAreSilent(r, raw, chainId, timestampMs, stale);
    RaisedByKind(r, s);
    KindMeaning(raw, chainId, timestampMs, stale);
    PayloadMeaning(raw, chainId, timestampMs, stale);
    hide Normalized, RaisedBy, Readable, Slot, MetaReads, MintBurnReads, OracleReads;
    if s.payload.EvmPayload? {
      EnoughData(raw, s.payload.evm);
    }
  }

  lemma EnoughData(raw: RawLog, evm: EvmLog)
    ensures HexCheck(raw.data).Success? && DataReads(raw, evm) ==>
              (evm.dataSize >= 32 <==> |raw.data| >= 66) && (evm.truncated <==> |raw.data| > 514)
  {
    if HexCheck(raw.data).Success? && DataReads(raw, evm) {
      DataLength(raw, evm);
    }
  }
}
