/** The three stateless rules that compare an amount with a threshold. Their alert lists are
    specified over numbers; each Evaluate method works on bytes, as the program does. */
module LargeTransferRule {
  import opened Results
  import opened Numbers
  import opened Hex
  import opened Signals

  datatype RuleConfig = RuleConfig(customerId: uint64, chainId: uint64, token: Address, thresholdBe: Word)

  function AlertOf(c: RuleConfig, evm: EvmLog, timestampMs: uint64): Alert
  {
    Alert(c.customerId, "large_transfer", "Large transfer detected", timestampMs,
          Some(Decimal(BE(evm.Amount()))), Some("0x" + HexOf(c.token)), Some(c.chainId))
  }

  /** The event can be judged: not retracted, and with both parties and the whole amount in it. */
  predicate Judged(evm: EvmLog) {
    !evm.removed && evm.topicCount >= 3 && evm.dataSize >= 32 && !evm.truncated
  }

  predicate Fires(c: RuleConfig, evm: EvmLog)
  {
    evm.chainId == c.chainId && evm.address == c.token && BE(evm.Amount()) > BE(c.thresholdBe)
  }

  function Matching(configs: seq<RuleConfig>, evm: EvmLog, timestampMs: uint64): seq<Alert>
  {
    if configs == [] then []
    else
      var c := configs[|configs| - 1];
      Matching(configs[..|configs| - 1], evm, timestampMs) +
      if Fires(c, evm) then [AlertOf(c, evm, timestampMs)] else []
  }

  function AlertsFor(configs: seq<RuleConfig>, s: Signal): seq<Alert>
  {
    if s.payload.EvmPayload? && Judged(s.payload.evm) then Matching(configs, s.payload.evm, s.meta.timestampMs) else []
  }

  /** The linear scan over every config. */
  method Evaluate(configs: seq<RuleConfig>, signal: Signal, out: seq<Alert>) returns (alerts: seq<Alert>)
    ensures alerts == out + AlertsFor(configs, signal)
  {
    alerts := out;
    if !signal.payload.EvmPayload? {
      return;
    }
    var evm := signal.payload.evm;
    if evm.removed || evm.topicCount < 3 || evm.dataSize < 32 || evm.truncated {
      return;
    }
    for k := 0 to |configs|
      invariant alerts == out + Matching(configs[..k], evm, signal.meta.timestampMs)
    {
      var c := configs[k];
      assert configs[..k + 1][..k] == configs[..k];
      GreaterIsNumeric(evm.Amount(), c.thresholdBe);
      if evm.chainId != c.chainId {
        continue;
      }
      if evm.address != c.token {
        continue;
      }
      if GreaterBe256(evm.data[..32], c.thresholdBe) {
        var amountDec := Uint256BeToDecimal(evm.data[..32]);
        var tokenText := AddressToHex(c.token);
        alerts := alerts + [Alert(c.customerId, "large_transfer", "Large transfer detected", signal.meta.timestampMs,
                                  Some(amountDec), Some(tokenText), Some(c.chainId))];
      }
    }
    assert configs[..|configs|] == configs;
  }
}

module BridgeTransferRule {
  import opened Results
  import opened Numbers
  import opened Hex
  import opened Signals
  import LargeTransferRule

  datatype RuleConfig = RuleConfig(
    customerId: uint64, chainId: uint64, token: Address, thresholdBe: Word, enabled: bool)

  datatype RuleKey = RuleKey(chainId: uint64, token: Address)
  datatype BridgeKey = BridgeKey(chainId: uint64, address: Address)

  datatype Configs = Configs(
    byKey: map<RuleKey, seq<RuleConfig>>, bridges: set<BridgeKey>, names: map<BridgeKey, string>)

  function KeyOf(c: RuleConfig): RuleKey {
    RuleKey(c.chainId, c.token)
  }

  /** The receiver of a Transfer: the low 20 bytes of its third topic. */
  function Receiver(evm: EvmLog): BridgeKey
  {
    BridgeKey(evm.chainId, evm.topics[2][12..])
  }

  function AlertOf(c: RuleConfig, evm: EvmLog, name: string, timestampMs: uint64): Alert
  {
    Alert(c.customerId, "bridge_transfer", "Large transfer to bridge '" + name + "' detected", timestampMs,
          Some(Decimal(BE(evm.Amount()))), Some("0x" + HexOf(evm.address)), Some(c.chainId))
  }

  predicate Fires(c: RuleConfig, evm: EvmLog)
  {
    c.enabled && BE(evm.Amount()) > BE(c.thresholdBe)
  }

  function Matching(bucket: seq<RuleConfig>, evm: EvmLog, name: string, timestampMs: uint64): seq<Alert>
  {
    if bucket == [] then []
    else
      var c := bucket[|bucket| - 1];
      Matching(bucket[..|bucket| - 1], evm, name, timestampMs) +
      if Fires(c, evm) then [AlertOf(c, evm, name, timestampMs)] else []
  }

  lemma MatchingSnoc(bucket: seq<RuleConfig>, c: RuleConfig, evm: EvmLog, name: string, timestampMs: uint64)
    ensures Matching(bucket + [c], evm, name, timestampMs)
            == Matching(bucket, evm, name, timestampMs)
               + if Fires(c, evm) then [AlertOf(c, evm, name, timestampMs)] else []
  {
    hide Fires, AlertOf;
    assert (bucket + [c])[..|bucket|] == bucket;
  }

  /** A customer is alerted exactly when one of its enabled settings in the bucket is below the
      amount. */
  lemma {:induction false} CustomerAlertedIff(
    bucket: seq<RuleConfig>, evm: EvmLog, name: string, timestampMs: uint64, customer: uint64)
    ensures (exists a :: a in Matching(bucket, evm, name, timestampMs) && a.customerId == customer)
            <==> exists c :: c in bucket && c.customerId == customer && c.enabled
                             && BE(evm.data[..32]) > BE(c.thresholdBe)
  {
    hide BE, Decimal, HexOf;
    if bucket != [] {
      var q, c := bucket[..|bucket| - 1], bucket[|bucket| - 1];
      CustomerAlertedIff(q, evm, name, timestampMs, customer);
      assert bucket == q + [c];
      if c.customerId == customer && c.enabled && BE(evm.data[..32]) > BE(c.thresholdBe) {
        assert AlertOf(c, evm, name, timestampMs) in Matching(bucket, evm, name, timestampMs);
      }
    }
  }

  function NameOf(configs: Configs, key: BridgeKey): string {
    if key in configs.names then configs.names[key] else "unknown bridge"
  }

  predicate ToBridge(configs: Configs, s: Signal)
  {
    && s.kind == Transfer && s.payload.EvmPayload? && LargeTransferRule.Judged(s.payload.evm)
    && Receiver(s.payload.evm) in configs.bridges
  }

  function AlertsFor(configs: Configs, s: Signal): seq<Alert>
  {
    if ToBridge(configs, s) && RuleKey(s.payload.evm.chainId, s.payload.evm.address) in configs.byKey then
      var evm := s.payload.evm;
      Matching(configs.byKey[RuleKey(evm.chainId, evm.address)], evm, NameOf(configs, Receiver(evm)),
               s.meta.timestampMs)
    else []
  }

  method Evaluate(configs: Configs, signal: Signal, out: seq<Alert>) returns (alerts: seq<Alert>)
    ensures alerts == out + AlertsFor(configs, signal)
  {
    alerts := out;
    if signal.kind != Transfer || !signal.payload.EvmPayload? {
      return;
    }
    var evm := signal.payload.evm;
    if evm.removed || evm.topicCount < 3 || evm.dataSize < 32 || evm.truncated {
      return;
    }
    var bridgeKey := BridgeKey(evm.chainId, evm.topics[2][12..]);
    if bridgeKey !in configs.bridges {
      return;
    }
    var ruleKey := RuleKey(evm.chainId, evm.address);
    if ruleKey !in configs.byKey {
      return;
    }
    var name := if bridgeKey in configs.names then configs.names[bridgeKey] else "unknown bridge";
    var bucket := configs.byKey[ruleKey];
    for k := 0 to |bucket|
      invariant alerts == out + Matching(bucket[..k], evm, name, signal.meta.timestampMs)
    {
      var c := bucket[k];
      assert bucket[..k + 1][..k] == bucket[..k];
      GreaterIsNumeric(evm.Amount(), c.thresholdBe);
      if !c.enabled {
        continue;
      }
      if !GreaterBe256(evm.data[..32], c.thresholdBe) {
        continue;
      }
      var msg := "Large transfer to bridge '" + name + "' detected";
      var amountDec := Uint256BeToDecimal(evm.data[..32]);
      var tokenText := AddressToHex(evm.address);
      alerts := alerts + [Alert(c.customerId, "bridge_transfer", msg, signal.meta.timestampMs,
                                Some(amountDec), Some(tokenText), Some(c.chainId))];
    }
    assert bucket[..|bucket|] == bucket;
  }
}

module MintBurnRule {
  import opened Results
  import opened Numbers
  import opened Hex
  import opened Signals

  datatype RuleConfig = RuleConfig(
    customerId: uint64, chainId: uint64, contract: string, mintThresholdBe: Word, burnThresholdBe: Word, enabled: bool)

  datatype RuleKey = RuleKey(chainId: uint64, contract: string)

  type Configs = map<RuleKey, seq<RuleConfig>>

  function KeyOf(c: RuleConfig): RuleKey {
    RuleKey(c.chainId, c.contract)
  }

  function EventKey(e: MintBurnEvent): RuleKey {
    RuleKey(e.chainId, "0x" + HexOf(e.token))
  }

  function AlertOf(c: RuleConfig, e: MintBurnEvent, timestampMs: uint64): Alert {
    Alert(c.customerId, "mint_burn", "Large " + (if e.direction == Mint then "Mint" else "Burn") + " detected",
          timestampMs,
          Some(Decimal(BE(e.amount))), Some("0x" + HexOf(e.token)), Some(e.chainId))
  }

  predicate Fires(c: RuleConfig, e: MintBurnEvent) {
    && c.enabled
    && match e.direction
       case Mint => BE(e.amount) >= BE(c.mintThresholdBe)
       case Burn => BE(e.amount) >= BE(c.burnThresholdBe)
       case NoDirection => false
  }

  function Matching(bucket: seq<RuleConfig>, e: MintBurnEvent, timestampMs: uint64): seq<Alert> {
    if bucket == [] then []
    else
      var c := bucket[|bucket| - 1];
      Matching(bucket[..|bucket| - 1], e, timestampMs) +
      if Fires(c, e) then [AlertOf(c, e, timestampMs)] else []
  }

  lemma MatchingSnoc(bucket: seq<RuleConfig>, c: RuleConfig, e: MintBurnEvent, timestampMs: uint64)
    ensures Matching(bucket + [c], e, timestampMs)
            == Matching(bucket, e, timestampMs) + if Fires(c, e) then [AlertOf(c, e, timestampMs)] else []
  {
    hide Fires, AlertOf;
    assert (bucket + [c])[..|bucket|] == bucket;
  }

  /** A customer is alerted exactly when an enabled setting of its in the bucket has a threshold of
      the event's direction that the amount reaches. */
  lemma {:induction false} CustomerAlertedIff(
    bucket: seq<RuleConfig>, e: MintBurnEvent, timestampMs: uint64, customer: uint64)
    ensures (exists a :: a in Matching(bucket, e, timestampMs) && a.customerId == customer)
            <==> exists c :: c in bucket && c.customerId == customer && c.enabled && Reached(c, e)
  {
    hide BE, Decimal, HexOf;
    if bucket != [] {
      var q, c := bucket[..|bucket| - 1], bucket[|bucket| - 1];
      CustomerAlertedIff(q, e, timestampMs, customer);
      assert bucket == q + [c];
      if c.customerId == customer && c.enabled && Reached(c, e) {
        assert AlertOf(c, e, timestampMs) in Matching(bucket, e, timestampMs);
      }
    }
  }

  predicate Reached(c: RuleConfig, e: MintBurnEvent) {
    || (e.direction == Mint && BE(e.amount) >= BE(c.mintThresholdBe))
    || (e.direction == Burn && BE(e.amount) >= BE(c.burnThresholdBe))
  }

  function AlertsFor(configs: Configs, s: Signal): seq<Alert> {
    if s.kind == SignalType.MintBurn && s.payload.MintBurnPayload? && EventKey(s.payload.mintBurn) in configs then
      Matching(configs[EventKey(s.payload.mintBurn)], s.payload.mintBurn, s.meta.timestampMs)
    else []
  }

  method Evaluate(configs: Configs, signal: Signal, out: seq<Alert>) returns (alerts: seq<Alert>)
    ensures alerts == out + AlertsFor(configs, signal)
  {
    alerts := out;
    if signal.kind != SignalType.MintBurn || !signal.payload.MintBurnPayload? {
      return;
    }
    var event := signal.payload.mintBurn;
    var contractHex := AddressToHex(event.token);
    var key := RuleKey(event.chainId, contractHex);
    if key !in configs {
      return;
    }
    var bucket := configs[key];
    for k := 0 to |bucket|
      invariant alerts == out + Matching(bucket[..k], event, signal.meta.timestampMs)
    {
      var c := bucket[k];
      assert bucket[..k + 1][..k] == bucket[..k];
      GreaterIsNumeric(c.mintThresholdBe, event.amount);
      GreaterIsNumeric(c.burnThresholdBe, event.amount);
      if !c.enabled {
        continue;
      }
      var isAlert := false;
      if event.direction == Mint {
        isAlert := !GreaterBe256(c.mintThresholdBe, event.amount);
      } else if event.direction == Burn {
        isAlert := !GreaterBe256(c.burnThresholdBe, event.amount);
      }
      if isAlert {
        var amountDec := Uint256BeToDecimal(event.amount);
        var dirText := if event.direction == Mint then "Mint" else "Burn";
        alerts := alerts + [Alert(c.customerId, "mint_burn", "Large " + dirText + " detected", signal.meta.timestampMs,
                                  Some(amountDec), Some(contractHex), Some(event.chainId))];
      }
    }
    assert bucket[..|bucket|] == bucket;
  }
}
