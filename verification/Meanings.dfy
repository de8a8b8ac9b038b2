/** What the bridge rule and the oracle rule mean end to end, as Thresholds does for transfers,
    mints and burns: logs of hexadecimal text judged against settings by the numbers they write. */
module Meanings {
  import opened Results
  import opened Numbers
  import opened Hex
  import opened Signals
  import opened Topics
  import opened Normalize
  import opened BacktestConfig
  import opened Thresholds
  import BridgeTransferRule
  import OracleRule

  // ---------------------------------------------------------------- transfers to a bridge

  /** The receiving address: the last forty digits of the third topic. */
  function ReceiverOf(raw: RawLog, chainId: uint64): BridgeTransferRule.BridgeKey
    requires TransferLog(raw)
  {
    BridgeTransferRule.BridgeKey(chainId, HexBytes(raw.topics[2][2..])[12..])
  }

  lemma ReceiverText(raw: RawLog, chainId: uint64)
    requires TransferLog(raw)
    ensures AllHex(raw.topics[2][26..]) && ReceiverOf(raw, chainId).address == HexBytes(raw.topics[2][26..])
  {
    var t := raw.topics[2];
    assert forall i :: 0 <= i < 40 ==> t[26..][i] == t[2..][24 + i];
  }

  function BridgeAlert(i: ThresholdItem, raw: RawLog, name: string, timestampMs: uint64): Alert
    requires TransferLog(raw)
  {
    Alert(i.customerId, "bridge_transfer", "Large transfer to bridge '" + name + "' detected", timestampMs,
          Some(Decimal(AmountNumber(raw))), Some(Lower(raw.address)), Some(i.chainId))
  }

  /** The alerts a transfer to the named bridge deserves, read off the texts alone. */
  function DeservedBridges(
    items: seq<ThresholdItem>, raw: RawLog, name: string, chainId: uint64, timestampMs: uint64): seq<Alert>
    requires TransferLog(raw)
  {
    if items == [] then []
    else
      var i := items[|items| - 1];
      DeservedBridges(items[..|items| - 1], raw, name, chainId, timestampMs) +
      if Exceeds(i, raw, chainId) then [BridgeAlert(i, raw, name, timestampMs)] else []
  }

  lemma BridgeItemDeserves(
    i: ThresholdItem, raw: RawLog, evm: EvmLog, name: string, chainId: uint64, timestampMs: uint64)
    requires TransferLog(raw) && BridgeOf(i).Success?
    requires evm.chainId == chainId && Decoded(raw, evm.address, evm.Amount())
    ensures var c := BridgeOf(i).value;
            && (c.chainId == evm.chainId && c.token == evm.address && BridgeTransferRule.Fires(c, evm)
                <==> Exceeds(i, raw, chainId))
            && BridgeTransferRule.AlertOf(c, evm, name, timestampMs) == BridgeAlert(i, raw, name, timestampMs)
  {
    hide BE, AllDecimal, DecimalValue, Decimal, HexOf, HexBytes, Lower, DecimalToWord, IsAddressText;
    ThresholdText(i.threshold);
    AddressBytesAgree(raw.address, i.token);
    LowerAddress(raw.address);
  }

  lemma {:induction false} ScanBridgeIsDeserved(
    items: seq<ThresholdItem>, raw: RawLog, evm: EvmLog, name: string, chainId: uint64, timestampMs: uint64)
    requires TransferLog(raw) && ParseAll(items, BridgeOf).Success?
    requires evm.chainId == chainId && Decoded(raw, evm.address, evm.Amount())
    ensures ScanBridge(ParseAll(items, BridgeOf).value, evm, name, timestampMs)
            == DeservedBridges(items, raw, name, chainId, timestampMs)
  {
    if items != [] {
      hide Decoded, TransferLog, BridgeOf, Exceeds, BridgeTransferRule.Fires, BridgeTransferRule.AlertOf, BridgeAlert;
      var n := |items| - 1;
      ScanBridgeIsDeserved(items[..n], raw, evm, name, chainId, timestampMs);
      var configs := ParseAll(items, BridgeOf).value;
      assert configs[..n] == ParseAll(items[..n], BridgeOf).value;
      assert configs[n] == BridgeOf(items[n]).value;
      BridgeItemDeserves(items[n], raw, evm, name, chainId, timestampMs);
    }
  }

  /** A whole, standing transfer between two parties whose receiver is a known bridge is alerted
      for exactly the settings of its chain and token whose decimal threshold is below the
      hexadecimal amount; any other log of this event raises nothing here. */
  lemma BridgeMeaning(
    items: seq<ThresholdItem>, all: BridgeTransferRule.Configs, raw: RawLog, chainId: uint64, timestampMs: uint64,
    stale: Word)
    requires TransferLog(raw) && Normalized(raw, chainId, timestampMs, stale).Success?
    requires BridgeIndex(items).Success? && all.byKey == BridgeIndex(items).value
    ensures BridgeTransferRule.AlertsFor(all, Normalized(raw, chainId, timestampMs, stale).value) ==
            if FromNumber(raw) == 0 || ToNumber(raw) == 0 || raw.removed || |raw.data| > 2 + 2 * MAX_DATA
               || ReceiverOf(raw, chainId) !in all.bridges then []
            else
              var key := ReceiverOf(raw, chainId);
              var name := if key in all.names then all.names[key] else "unknown bridge";
              DeservedBridges(items, raw, name, chainId, timestampMs)
  {
    hide ReadLog, Interpret, DeservedBridges, ScanBridge, BuildIndex, ParseAll, BE, HexBytes;
    var (meta, evm) := ReadLog(raw, chainId, timestampMs, stale).value;
    DecodedTransfer(raw, chainId, timestampMs, stale);
    TransferClassified(raw, chainId, timestampMs, stale);
    DecodedTopics(raw, chainId, timestampMs, stale);
    var s := Normalized(raw, chainId, timestampMs, stale).value;
    BridgeIndexRefinesScan(ParseAll(items, BridgeOf).value, all, s);
    if FromNumber(raw) != 0 && ToNumber(raw) != 0 {
      assert BridgeTransferRule.Receiver(evm) == ReceiverOf(raw, chainId);
      var name := BridgeTransferRule.NameOf(all, ReceiverOf(raw, chainId));
      ScanBridgeIsDeserved(items, raw, evm, name, chainId, timestampMs);
    }
  }

  // ---------------------------------------------------------------- answers of a feed

  /** An AnswerUpdated log: the indexed arguments are the answer and the round. */
  predicate AnswerLog(raw: RawLog) {
    WholeLog(raw) && HexBytes(raw.topics[0][2..]) == TOPIC_ORACLE_ANSWER_UPDATED
  }

  /** The int256 a topic writes. */
  function SignedNumber(t: string): int
    requires IsWordText(t)
  {
    if WordNumber(t) < TWO_256 / 2 then WordNumber(t) else WordNumber(t) - TWO_256
  }

  lemma SignedText(t: string)
    requires IsWordText(t)
    ensures OracleRule.Signed(HexBytes(t[2..])) == SignedNumber(t)
  {
    var w := HexBytes(t[2..]);
    HexBytesValue(t[2..]);
    SignBit(w);
  }

  lemma SignBit(w: Word)
    ensures w[0] < 128 <==> BE(w) < TWO_256 / 2
  {
    SplitFirst(w);
    ValueBound(w[1..], 256);
    WidthBounds();
    hide BE;
    var p := Pow(256, 31);
    assert Pow(256, 32) == 256 * p;
    if w[0] < 128 {
      MulMonotone(w[0] + 1, 128, p);
    } else {
      MulMonotone(128, w[0], p);
    }
  }

  lemma AnswerTopic()
    ensures ClassifyTopic0(TOPIC_ORACLE_ANSWER_UPDATED) == OracleUpdate
  {
    var t := TOPIC_ORACLE_ANSWER_UPDATED;
    assert t[0] != TOPIC_TRANSFER[0] && t[0] != TOPIC_SWAP_V2[0] && t[0] != TOPIC_SWAP_V3[0];
    assert t[0] != TOPIC_MINT[0] && t[0] != TOPIC_BURN[0] && t[0] != TOPIC_APPROVAL[0];
    assert t[0] != TOPIC_OWNERSHIP_TRANSFERRED[0] && t[0] != TOPIC_PAUSED[0] && t[0] != TOPIC_UNPAUSED[0];
    assert t[0] != TOPIC_ROLE_GRANTED[0] && t[0] != TOPIC_ROLE_REVOKED[0] && t[0] != TOPIC_UPGRADED[0];
  }

  function FeedOfLog(raw: RawLog, chainId: uint64): OracleRule.FeedKey
    requires AnswerLog(raw)
  {
    OracleRule.FeedKey(chainId, HexBytes(raw.address[2..]))
  }

  /** The signal carries the feed and the answer the log writes. */
  ghost predicate CarriesAnswer(s: Signal, raw: RawLog, chainId: uint64, timestampMs: uint64)
    requires AnswerLog(raw)
  {
    && OracleRule.IsUpdate(s) && s.meta.timestampMs == timestampMs
    && OracleRule.KeyOf(s.payload.oracle) == FeedOfLog(raw, chainId)
    && s.payload.oracle.answer == HexBytes(raw.topics[1][2..])
  }

  /** What an AnswerUpdated log becomes. */
  lemma AnswerClassified(raw: RawLog, chainId: uint64, timestampMs: uint64, stale: Word)
    requires AnswerLog(raw) && Normalized(raw, chainId, timestampMs, stale).Success?
    ensures CarriesAnswer(Normalized(raw, chainId, timestampMs, stale).value, raw, chainId, timestampMs)
  {
    hide ReadLog, ClassifyTopic0, BE, HexBytes;
    DecodedFields(raw, chainId, timestampMs, stale);
    DecodedTopics(raw, chainId, timestampMs, stale);
    AnswerTopic();
  }

  /** The setting is for this feed, and the answer is at least one basis point more than its
      threshold above or below the answer before. */
  predicate SettingSpikes(i: OracleItem, raw: RawLog, chainId: uint64, p: nat, x: nat)
    requires AnswerLog(raw)
  {
    && i.chainId == chainId && SameAddress(i.aggregator, raw.address)
    && (x * 10000 >= p * (10001 + i.spikeThresholdBps) || x * 10000 <= p * (9999 - i.spikeThresholdBps))
  }

  function AnswerAlert(i: OracleItem, raw: RawLog, chainId: uint64, timestampMs: uint64, p: nat, x: nat): Alert
    requires AnswerLog(raw) && p > 0
  {
    Alert(i.customerId, "oracle_update",
          "Oracle spike on " + i.feedLabel + ": " + OracleRule.FormatPct(OracleRule.DeltaBps(p, x)) + "% change",
          timestampMs, Some(Decimal(x)), Some(Lower(raw.address)), Some(chainId))
  }

  /** The alerts a jump from p to x deserves. */
  function DeservedSpikes(
    items: seq<OracleItem>, raw: RawLog, chainId: uint64, timestampMs: uint64, p: nat, x: nat): seq<Alert>
    requires AnswerLog(raw) && p > 0
  {
    if items == [] then []
    else
      var i := items[|items| - 1];
      DeservedSpikes(items[..|items| - 1], raw, chainId, timestampMs, p, x) +
      if SettingSpikes(i, raw, chainId, p, x) then [AnswerAlert(i, raw, chainId, timestampMs, p, x)] else []
  }

  lemma OracleItemDeserves(
    i: OracleItem, raw: RawLog, o: OracleEvent, chainId: uint64, timestampMs: uint64, p: nat, x: nat)
    requires AnswerLog(raw) && OracleOf(i).Success? && OracleRule.KeyOf(o) == FeedOfLog(raw, chainId) && p > 0
    ensures var c := OracleOf(i).value;
            && (FeedOf(c) == OracleRule.KeyOf(o) && c.enabled && OracleRule.Spikes(p, x, c.spikeThresholdBps)
                <==> SettingSpikes(i, raw, chainId, p, x))
            && OracleRule.SpikeAlert(c, o, timestampMs, x, OracleRule.DeltaBps(p, x))
               == AnswerAlert(i, raw, chainId, timestampMs, p, x)
  {
    hide Decimal, HexOf, HexBytes, Lower, IsAddressText, OracleRule.Spikes, OracleRule.DeltaBps, OracleRule.FormatPct;
    AddressBytesAgree(raw.address, i.aggregator);
    LowerAddress(raw.address);
    OracleRule.SpikesPlainly(p, x, i.spikeThresholdBps);
  }

  lemma {:induction false} ScanOracleIsDeserved(
    items: seq<OracleItem>, raw: RawLog, o: OracleEvent, chainId: uint64, timestampMs: uint64, p: nat, x: nat)
    requires AnswerLog(raw) && ParseAll(items, OracleOf).Success?
    requires OracleRule.KeyOf(o) == FeedOfLog(raw, chainId) && p > 0
    ensures ScanOracle(ParseAll(items, OracleOf).value, o, timestampMs, p, x)
            == DeservedSpikes(items, raw, chainId, timestampMs, p, x)
  {
    if items != [] {
      hide AnswerLog, OracleOf, FeedOf, SettingSpikes, AnswerAlert, OracleRule.Spikes, OracleRule.SpikeAlert;
      var n := |items| - 1;
      ScanOracleIsDeserved(items[..n], raw, o, chainId, timestampMs, p, x);
      var configs := ParseAll(items, OracleOf).value;
      assert configs[..n] == ParseAll(items[..n], OracleOf).value;
      assert configs[n] == OracleOf(items[n]).value;
      OracleItemDeserves(items[n], raw, o, chainId, timestampMs, p, x);
    }
  }

  /** An AnswerUpdated log whose signed answer is from 0 to 2^64 - 1 is alerted, against a positive
      remembered answer of its feed, for exactly the settings of the feed whose threshold the jump
      passes by a whole basis point, and is what the rule remembers next if the feed has settings.
      Any other answer raises nothing and changes nothing. */
  lemma OracleMeaning(
    items: seq<OracleItem>, last: OracleRule.Memory, raw: RawLog, chainId: uint64, timestampMs: uint64, stale: Word)
    requires AnswerLog(raw) && Normalized(raw, chainId, timestampMs, stale).Success? && OracleIndex(items).Success?
    ensures var s, index := Normalized(raw, chainId, timestampMs, stale).value, OracleIndex(items).value;
            var feed, x := FeedOfLog(raw, chainId), SignedNumber(raw.topics[1]);
            var next := OracleRule.NextMemory(index, last, s);
            && OracleRule.AlertsFor(index, last, s) ==
               (if 0 <= x < TWO_64 && feed in last && BE(last[feed].answer) > 0
                then DeservedSpikes(items, raw, chainId, timestampMs, BE(last[feed].answer), x) else [])
            && (if 0 <= x < TWO_64 && feed in index
                then feed in next && BE(next[feed].answer) == x && next - {feed} == last - {feed}
                else next == last)
  {
    hide Normalized, DeservedSpikes, ScanOracle, BuildIndex, ParseAll, BE, HexBytes, OracleRule.Signed,
      OracleRule.Accepted, OracleRule.SpikeAlerts;
    AnswerClassified(raw, chainId, timestampMs, stale);
    SignedText(raw.topics[1]);
    var s := Normalized(raw, chainId, timestampMs, stale).value;
    var o, configs := s.payload.oracle, ParseAll(items, OracleOf).value;
    OracleRule.AcceptedIsLow64(o.answer);
    OracleIndexRefinesScan(configs, last, s);
    if OracleRule.KeyOf(o) in last && BE(last[OracleRule.KeyOf(o)].answer) > 0 {
      ScanOracleIsDeserved(items, raw, o, chainId, timestampMs, BE(last[OracleRule.KeyOf(o)].answer), BE(o.answer));
    }
  }
}
