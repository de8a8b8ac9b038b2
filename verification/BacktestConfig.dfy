/** Rule settings as they come out of the YAML file, and the buckets the rules look them up in
    (src/backtest/backtest_config.cpp). */
module BacktestConfig {
  import opened Results
  import opened Numbers
  import opened Hex
  import opened Signals
  import LargeTransferRule
  import BridgeTransferRule
  import MintBurnRule
  import OracleRule

  // ---------------------------------------------------------------- addresses

  function LowerChar(c: char): char {
    if 'A' <= c <= 'Z' then (c as int + 32) as char else c
  }

  function Lower(s: string): (r: string)
    ensures |r| == |s| && forall i :: 0 <= i < |s| ==> r[i] == LowerChar(s[i])
  {
    seq(|s|, i requires 0 <= i < |s| => LowerChar(s[i]))
  }

  method ToLower(s: string) returns (r: string)
    ensures r == Lower(s)
  {
    r := s;
    for i := 0 to |s|
      invariant |r| == |s|
      invariant forall j :: 0 <= j < i ==> r[j] == LowerChar(s[j])
      invariant forall j :: i <= j < |s| ==> r[j] == s[j]
    {
      r := r[i := LowerChar(r[i])];
    }
  }

  predicate IsAddressText(s: string) {
    |s| == 42 && HasPrefix(s) && AllHex(s[2..])
  }

  function CheckAddress(addr: string): (r: Result<()>)
    ensures r.Success? <==> IsAddressText(addr)
  {
    if |addr| != 42 || !HasPrefix(addr) then Failure(InvalidAddress)
    else HexCheck(addr)
  }

  method ValidateHexAddress(addr: string) returns (r: Result<()>)
    ensures r == CheckAddress(addr)
  {
    if |addr| != 42 || !HasPrefix(addr) {
      return Failure(InvalidAddress);
    }
    r := ValidateHex(addr);
  }

  lemma LowerText(t: string)
    requires AllHex(t) && |t| % 2 == 0
    ensures AllHex(Lower(t)) && LowerHex(Lower(t)) && HexBytes(Lower(t)) == HexBytes(t)
  {
    var u := Lower(t);
    forall i | 0 <= i < |t|
      ensures HexNibble(u[i]) == HexNibble(t[i]) && ('0' <= u[i] <= '9' || 'a' <= u[i] <= 'f')
    {
      LowerNibble(t[i]);
    }
    assert HexBytes(u) == HexBytes(t);
  }

  lemma LowerNibble(c: char)
    requires HexNibble(c).Some?
    ensures HexNibble(LowerChar(c)) == HexNibble(c)
    ensures '0' <= LowerChar(c) <= '9' || 'a' <= LowerChar(c) <= 'f'
  {
  }

  /** Lower-casing keeps an address readable and reads the same bytes. */
  lemma LowerAddress(s: string)
    requires IsAddressText(s)
    ensures IsAddressText(Lower(s)) && LowerHex(Lower(s)[2..])
    ensures HexBytes(Lower(s)[2..]) == HexBytes(s[2..])
    ensures "0x" + HexOf(HexBytes(s[2..])) == Lower(s)
  {
    var t := s[2..];
    LowerText(t);
    assert Lower(s)[2..] == Lower(t);
    BytesThenHexOf(Lower(t));
    assert Lower(s) == "0x" + Lower(t);
  }

  /** The string key the rules build from event bytes matches a validated setting exactly when
      the bytes match. */
  lemma TextKeyIsByteKey(token: seq<byte>, setting: string)
    requires |token| == 20 && IsAddressText(setting)
    ensures "0x" + HexOf(token) == Lower(setting) <==> token == HexBytes(setting[2..])
  {
    LowerAddress(setting);
    HexOfThenBytes(token);
    assert ("0x" + HexOf(token))[2..] == HexOf(token);
  }

  // ---------------------------------------------------------------- buckets

  /** Appends to the bucket of a key, which springs into being when it is missing. */
  function PushBack<K(==), C>(index: map<K, seq<C>>, key: K, c: C): map<K, seq<C>> {
    index[key := (if key in index then index[key] else []) + [c]]
  }

  function BuildIndex<K(==), C>(items: seq<C>, keyOf: C -> K): map<K, seq<C>> {
    if items == [] then map[]
    else
      var n := |items| - 1;
      PushBack(BuildIndex(items[..n], keyOf), keyOf(items[n]), items[n])
  }

  /** The items with a given key, in their order. */
  function Bucket<K(==), C>(items: seq<C>, keyOf: C -> K, key: K): seq<C> {
    if items == [] then []
    else
      var n := |items| - 1;
      Bucket(items[..n], keyOf, key) + if keyOf(items[n]) == key then [items[n]] else []
  }

  /** The index holds for each key the items of that key, in order, and no empty buckets. */
  lemma {:induction false} IndexIsBuckets<K, C>(items: seq<C>, keyOf: C -> K, key: K)
    ensures key in BuildIndex(items, keyOf) <==> Bucket(items, keyOf, key) != []
    ensures key in BuildIndex(items, keyOf) ==> BuildIndex(items, keyOf)[key] == Bucket(items, keyOf, key)
  {
    if items != [] {
      IndexIsBuckets(items[..|items| - 1], keyOf, key);
    }
  }

  // ---------------------------------------------------------------- settings

  datatype ThresholdItem = ThresholdItem(customerId: uint64, chainId: uint64, token: string, threshold: string)

  datatype MintBurnItem = MintBurnItem(
    customerId: uint64, chainId: uint64, contract: string, mintThreshold: string, burnThreshold: string)

  datatype OracleItem = OracleItem(
    customerId: uint64, chainId: uint64, aggregator: string, feedLabel: string, spikeThresholdBps: int, decimals: int)

  function AddressBytes(text: string): (r: Result<Address>)
    ensures r.Success? <==> IsAddressText(Lower(text))
  {
    var _ :- CheckAddress(Lower(text));
    Success(HexBytes(Lower(text)[2..]))
  }

  method ParseAddress(text: string) returns (r: Result<Address>)
    ensures r == AddressBytes(text)
  {
    var lowered := ToLower(text);
    var _ :- ValidateHexAddress(lowered);
    var bytes := new byte[20](_ => 0);
    assert lowered[2..2 + 2 * 20] == lowered[2..];
    assert HexPrefix(lowered, 20) == Success(HexBytes(lowered[2..]));
    var outcome := ParseHexBytes(lowered, bytes);
    assert bytes[..] == HexBytes(lowered[2..]);
    return Success(bytes[..]);
  }

  function LargeTransferOf(i: ThresholdItem): Result<LargeTransferRule.RuleConfig> {
    var token :- AddressBytes(i.token);
    var threshold :- DecimalToWord(i.threshold);
    Success(LargeTransferRule.RuleConfig(i.customerId, i.chainId, token, threshold))
  }

  function BridgeOf(i: ThresholdItem): Result<BridgeTransferRule.RuleConfig> {
    var token :- AddressBytes(i.token);
    var threshold :- DecimalToWord(i.threshold);
    Success(BridgeTransferRule.RuleConfig(i.customerId, i.chainId, token, threshold, true))
  }

  function MintBurnOf(i: MintBurnItem): Result<MintBurnRule.RuleConfig> {
    var _ :- CheckAddress(Lower(i.contract));
    var mint :- DecimalToWord(i.mintThreshold);
    var burn :- DecimalToWord(i.burnThreshold);
    Success(MintBurnRule.RuleConfig(i.customerId, i.chainId, Lower(i.contract), mint, burn, true))
  }

  function OracleOf(i: OracleItem): Result<OracleRule.RuleConfig> {
    var aggregator :- AddressBytes(i.aggregator);
    if i.spikeThresholdBps <= 0 || i.spikeThresholdBps > 100000 then Failure(SettingOutOfRange)
    else if i.decimals < 0 || i.decimals > 255 then Failure(SettingOutOfRange)
    else Success(OracleRule.RuleConfig(i.customerId, i.chainId, aggregator, i.feedLabel, i.spikeThresholdBps,
                                        i.decimals, true))
  }

  /** Address text in a settings file: 0x or 0X and forty digits in either case. */
  predicate AddressText(text: string) {
    |text| == 42 && text[0] == '0' && text[1] in "xX" && forall i :: 2 <= i < 42 ==> IsHexChar(text[i])
  }

  lemma AddressParses(text: string)
    ensures AddressBytes(text).Success? <==> AddressText(text)
    ensures CheckAddress(Lower(text)).Success? <==> AddressText(text)
  {
    if |text| == 42 {
      TailIsHex(Lower(text));
      forall i | 2 <= i < 42
        ensures IsHexChar(Lower(text)[i]) <==> IsHexChar(text[i])
      {
        HexCharLowered(text[i]);
      }
    }
  }

  lemma HexCharLowered(c: char)
    ensures IsHexChar(LowerChar(c)) <==> IsHexChar(c)
  {
    HexCharReads(c);
    HexCharReads(LowerChar(c));
  }

  /** A decimal text that fits 256 bits. */
  predicate ThresholdParses(text: string) {
    AllDecimal(text) && DecimalValue(text) < TWO_256
  }

  lemma DecimalParses(text: string)
    ensures DecimalToWord(text).Success? <==> ThresholdParses(text)
    ensures ThresholdParses(text) ==> BE(DecimalToWord(text).value) == DecimalValue(text)
  {
    ReadDecimalMeaning(text);
    if ThresholdParses(text) {
      ValueOfWord(DecimalValue(text));
    }
  }

  /** When an item of each section parses, and what it becomes. */
  lemma LargeTransferParses(i: ThresholdItem)
    ensures LargeTransferOf(i).Success? <==> AddressText(i.token) && ThresholdParses(i.threshold)
    ensures LargeTransferOf(i).Success? ==>
              var c := LargeTransferOf(i).value;
              && c.customerId == i.customerId && c.chainId == i.chainId
              && "0x" + HexOf(c.token) == Lower(i.token) && BE(c.thresholdBe) == DecimalValue(i.threshold)
  {
    hide AddressText, ThresholdParses, Lower, HexOf, BE, DecimalToWord, IsAddressText;
    AddressParses(i.token);
    DecimalParses(i.threshold);
    if LargeTransferOf(i).Success? {
      AddressWritten(i.token);
    }
  }

  lemma BridgeParses(i: ThresholdItem)
    ensures BridgeOf(i).Success? <==> AddressText(i.token) && ThresholdParses(i.threshold)
    ensures BridgeOf(i).Success? ==>
              var c := BridgeOf(i).value;
              && c.customerId == i.customerId && c.chainId == i.chainId && c.enabled
              && "0x" + HexOf(c.token) == Lower(i.token) && BE(c.thresholdBe) == DecimalValue(i.threshold)
  {
    hide AddressText, ThresholdParses, Lower, HexOf, BE, DecimalToWord, IsAddressText;
    AddressParses(i.token);
    DecimalParses(i.threshold);
    if BridgeOf(i).Success? {
      AddressWritten(i.token);
    }
  }

  lemma MintBurnParses(i: MintBurnItem)
    ensures MintBurnOf(i).Success? <==>
            AddressText(i.contract) && ThresholdParses(i.mintThreshold) && ThresholdParses(i.burnThreshold)
    ensures MintBurnOf(i).Success? ==>
              var c := MintBurnOf(i).value;
              && c.customerId == i.customerId && c.chainId == i.chainId && c.enabled && c.contract == Lower(i.contract)
              && BE(c.mintThresholdBe) == DecimalValue(i.mintThreshold)
              && BE(c.burnThresholdBe) == DecimalValue(i.burnThreshold)
  {
    hide AddressText, ThresholdParses, Lower, BE, DecimalToWord, CheckAddress;
    AddressParses(i.contract);
    DecimalParses(i.mintThreshold);
    DecimalParses(i.burnThreshold);
  }

  lemma OracleParses(i: OracleItem)
    ensures OracleOf(i).Success? <==>
            AddressText(i.aggregator) && 1 <= i.spikeThresholdBps <= 100_000 && 0 <= i.decimals <= 255
    ensures OracleOf(i).Success? ==>
              var c := OracleOf(i).value;
              && c.customerId == i.customerId && c.chainId == i.chainId && c.enabled && c.feedLabel == i.feedLabel
              && c.spikeThresholdBps == i.spikeThresholdBps && c.decimals == i.decimals
              && "0x" + HexOf(c.aggregator) == Lower(i.aggregator)
  {
    hide AddressText, Lower, HexOf, IsAddressText;
    AddressParses(i.aggregator);
    if OracleOf(i).Success? {
      AddressWritten(i.aggregator);
    }
  }

  /** The bytes read from an address print as the lowered text. */
  lemma AddressWritten(text: string)
    requires AddressBytes(text).Success?
    ensures "0x" + HexOf(AddressBytes(text).value) == Lower(text)
  {
    LowerAddress(Lower(text));
    assert Lower(Lower(text)) == Lower(text);
  }

  ghost predicate FirstBad<I, C>(items: seq<I>, parse: I -> Result<C>, k: nat)
    requires k < |items|
  {
    parse(items[k]).Failure? && forall j :: 0 <= j < k ==> parse(items[j]).Success?
  }

  /** A section parses exactly when all its items do, item by item; otherwise it fails as the
      first item that does not. */
  lemma {:induction false} SectionParses<I, C>(items: seq<I>, parse: I -> Result<C>)
    ensures ParseAll(items, parse).Success? <==> forall k :: 0 <= k < |items| ==> parse(items[k]).Success?
    ensures ParseAll(items, parse).Success? ==>
              forall k :: 0 <= k < |items| ==> ParseAll(items, parse).value[k] == parse(items[k]).value
    ensures forall k :: 0 <= k < |items| && FirstBad(items, parse, k) ==>
              ParseAll(items, parse) == Failure(parse(items[k]).error)
  {
    if items != [] {
      var n := |items| - 1;
      SectionParses(items[..n], parse);
      assert forall k :: 0 <= k < n ==> items[..n][k] == items[k];
    }
  }

  /** Every item of a section, up to the first that does not parse. */
  function ParseAll<I, C>(items: seq<I>, parse: I -> Result<C>): (r: Result<seq<C>>)
    ensures r.Success? ==> |r.value| == |items|
  {
    if items == [] then Success([])
    else
      var init :- ParseAll(items[..|items| - 1], parse);
      var last :- parse(items[|items| - 1]);
      Success(init + [last])
  }

  lemma {:induction false} FailedItem<I, C>(items: seq<I>, parse: I -> Result<C>, k: nat)
    requires k <= |items| && ParseAll(items[..k], parse).Failure?
    ensures ParseAll(items, parse) == Failure(ParseAll(items[..k], parse).error)
  {
    if k == |items| {
      assert items[..k] == items;
    } else {
      var q := items[..|items| - 1];
      assert q[..k] == items[..k];
      FailedItem(q, parse, k);
    }
  }

  method ParseLargeTransfer(items: seq<ThresholdItem>) returns (r: Result<seq<LargeTransferRule.RuleConfig>>)
    ensures r == ParseAll(items, LargeTransferOf)
  {
    hide AddressBytes, CheckAddress, DecimalToWord, Lower;
    var configs: seq<LargeTransferRule.RuleConfig> := [];
    for k := 0 to |items|
      invariant ParseAll(items[..k], LargeTransferOf) == Success(configs)
    {
      var i := items[k];
      assert items[..k + 1][..k] == items[..k];
      var token := ParseAddress(i.token);
      if token.Failure? {
        FailedItem(items, LargeTransferOf, k + 1);
        return Failure(token.error);
      }
      var threshold := DecimalToBe256(i.threshold);
      if threshold.Failure? {
        FailedItem(items, LargeTransferOf, k + 1);
        return Failure(threshold.error);
      }
      configs := configs + [LargeTransferRule.RuleConfig(i.customerId, i.chainId, token.value, threshold.value)];
    }
    assert items[..|items|] == items;
    return Success(configs);
  }

  function MintBurnIndex(items: seq<MintBurnItem>): Result<MintBurnRule.Configs> {
    var configs :- ParseAll(items, MintBurnOf);
    Success(BuildIndex(configs, MintBurnRule.KeyOf))
  }

  method ParseMintBurn(items: seq<MintBurnItem>) returns (r: Result<MintBurnRule.Configs>)
    ensures r == MintBurnIndex(items)
  {
    hide AddressBytes, CheckAddress, DecimalToWord, Lower;
    var index: MintBurnRule.Configs := map[];
    ghost var configs: seq<MintBurnRule.RuleConfig> := [];
    for k := 0 to |items|
      invariant ParseAll(items[..k], MintBurnOf) == Success(configs)
      invariant index == BuildIndex(configs, MintBurnRule.KeyOf)
    {
      var i := items[k];
      assert items[..k + 1][..k] == items[..k];
      var contract := ToLower(i.contract);
      var valid := ValidateHexAddress(contract);
      if valid.Failure? {
        FailedItem(items, MintBurnOf, k + 1);
        return Failure(valid.error);
      }
      var mint := DecimalToBe256(i.mintThreshold);
      if mint.Failure? {
        FailedItem(items, MintBurnOf, k + 1);
        return Failure(mint.error);
      }
      var burn := DecimalToBe256(i.burnThreshold);
      if burn.Failure? {
        FailedItem(items, MintBurnOf, k + 1);
        return Failure(burn.error);
      }
      var c := MintBurnRule.RuleConfig(i.customerId, i.chainId, contract, mint.value, burn.value, true);
      assert (configs + [c])[..|configs|] == configs;
      index := PushBack(index, MintBurnRule.RuleKey(c.chainId, c.contract), c);
      configs := configs + [c];
    }
    assert items[..|items|] == items;
    return Success(index);
  }

  function BridgeIndex(
    items: seq<ThresholdItem>): Result<map<BridgeTransferRule.RuleKey, seq<BridgeTransferRule.RuleConfig>>> {
    var configs :- ParseAll(items, BridgeOf);
    Success(BuildIndex(configs, BridgeTransferRule.KeyOf))
  }

  method ParseBridgeTransfers(items: seq<ThresholdItem>)
    returns (r: Result<map<BridgeTransferRule.RuleKey, seq<BridgeTransferRule.RuleConfig>>>)
    ensures r == BridgeIndex(items)
  {
    hide AddressBytes, CheckAddress, DecimalToWord, Lower;
    var index: map<BridgeTransferRule.RuleKey, seq<BridgeTransferRule.RuleConfig>> := map[];
    ghost var configs: seq<BridgeTransferRule.RuleConfig> := [];
    for k := 0 to |items|
      invariant ParseAll(items[..k], BridgeOf) == Success(configs)
      invariant index == BuildIndex(configs, BridgeTransferRule.KeyOf)
    {
      var i := items[k];
      assert items[..k + 1][..k] == items[..k];
      var token := ParseAddress(i.token);
      if token.Failure? {
        FailedItem(items, BridgeOf, k + 1);
        return Failure(token.error);
      }
      var threshold := DecimalToBe256(i.threshold);
      if threshold.Failure? {
        FailedItem(items, BridgeOf, k + 1);
        return Failure(threshold.error);
      }
      var c := BridgeTransferRule.RuleConfig(i.customerId, i.chainId, token.value, threshold.value, true);
      assert (configs + [c])[..|configs|] == configs;
      index := PushBack(index, BridgeTransferRule.RuleKey(c.chainId, c.token), c);
      configs := configs + [c];
    }
    assert items[..|items|] == items;
    return Success(index);
  }

  function FeedOf(c: OracleRule.RuleConfig): OracleRule.FeedKey {
    OracleRule.FeedKey(c.chainId, c.aggregator)
  }

  function OracleIndex(items: seq<OracleItem>): Result<OracleRule.Configs> {
    var configs :- ParseAll(items, OracleOf);
    Success(BuildIndex(configs, FeedOf))
  }

  method ParseOracleUpdate(items: seq<OracleItem>) returns (r: Result<OracleRule.Configs>)
    ensures r == OracleIndex(items)
  {
    hide AddressBytes, CheckAddress, DecimalToWord, Lower;
    var index: OracleRule.Configs := map[];
    ghost var configs: seq<OracleRule.RuleConfig> := [];
    for k := 0 to |items|
      invariant ParseAll(items[..k], OracleOf) == Success(configs)
      invariant index == BuildIndex(configs, FeedOf)
    {
      var i := items[k];
      assert items[..k + 1][..k] == items[..k];
      var aggregator := ParseAddress(i.aggregator);
      if aggregator.Failure? {
        FailedItem(items, OracleOf, k + 1);
        return Failure(aggregator.error);
      }
      if i.spikeThresholdBps <= 0 || i.spikeThresholdBps > 100000 {
        FailedItem(items, OracleOf, k + 1);
        return Failure(SettingOutOfRange);
      }
      if i.decimals < 0 || i.decimals > 255 {
        FailedItem(items, OracleOf, k + 1);
        return Failure(SettingOutOfRange);
      }
      var c := OracleRule.RuleConfig(i.customerId, i.chainId, aggregator.value, i.feedLabel, i.spikeThresholdBps,
                                     i.decimals, true);
      assert (configs + [c])[..|configs|] == configs;
      index := PushBack(index, OracleRule.FeedKey(c.chainId, c.aggregator), c);
      configs := configs + [c];
    }
    assert items[..|items|] == items;
    return Success(index);
  }

  // ---------------------------------------------------------------- buckets against plain scans

  /** Scanning the whole list of mint/burn settings for those of the event's contract. */
  function ScanMintBurn(configs: seq<MintBurnRule.RuleConfig>, e: MintBurnEvent, timestampMs: uint64): seq<Alert> {
    if configs == [] then []
    else
      var c := configs[|configs| - 1];
      ScanMintBurn(configs[..|configs| - 1], e, timestampMs) +
      if MintBurnRule.KeyOf(c) == MintBurnRule.EventKey(e) && MintBurnRule.Fires(c, e)
      then [MintBurnRule.AlertOf(c, e, timestampMs)] else []
  }

  lemma {:induction false} MintBurnBucketScan(
    configs: seq<MintBurnRule.RuleConfig>, e: MintBurnEvent, timestampMs: uint64)
    ensures MintBurnRule.Matching(Bucket(configs, MintBurnRule.KeyOf, MintBurnRule.EventKey(e)), e, timestampMs)
            == ScanMintBurn(configs, e, timestampMs)
  {
    if configs != [] {
      var n := |configs| - 1;
      hide MintBurnRule.Fires, MintBurnRule.AlertOf, MintBurnRule.EventKey;
      MintBurnBucketScan(configs[..n], e, timestampMs);
      var before := Bucket(configs[..n], MintBurnRule.KeyOf, MintBurnRule.EventKey(e));
      MintBurnRule.MatchingSnoc(before, configs[n], e, timestampMs);
      assert before + [] == before;
    }
  }

  /** The index lookup raises the alerts of a scan over all settings, in the same order. */
  lemma MintBurnIndexRefinesScan(configs: seq<MintBurnRule.RuleConfig>, s: Signal)
    requires s.kind == SignalType.MintBurn && s.payload.MintBurnPayload?
    ensures MintBurnRule.AlertsFor(BuildIndex(configs, MintBurnRule.KeyOf), s)
            == ScanMintBurn(configs, s.payload.mintBurn, s.meta.timestampMs)
  {
    IndexIsBuckets(configs, MintBurnRule.KeyOf, MintBurnRule.EventKey(s.payload.mintBurn));
    MintBurnBucketScan(configs, s.payload.mintBurn, s.meta.timestampMs);
  }

  function ScanBridge(
    configs: seq<BridgeTransferRule.RuleConfig>, evm: EvmLog, name: string, timestampMs: uint64): seq<Alert>
  {
    if configs == [] then []
    else
      var c := configs[|configs| - 1];
      ScanBridge(configs[..|configs| - 1], evm, name, timestampMs) +
      if c.chainId == evm.chainId && c.token == evm.address && BridgeTransferRule.Fires(c, evm)
      then [BridgeTransferRule.AlertOf(c, evm, name, timestampMs)] else []
  }

  lemma {:induction false} BridgeBucketScan(
    configs: seq<BridgeTransferRule.RuleConfig>, evm: EvmLog, name: string, timestampMs: uint64)
    ensures BridgeTransferRule.Matching(
              Bucket(configs, BridgeTransferRule.KeyOf, BridgeTransferRule.RuleKey(evm.chainId, evm.address)),
              evm, name, timestampMs)
            == ScanBridge(configs, evm, name, timestampMs)
  {
    if configs != [] {
      var n := |configs| - 1;
      hide BridgeTransferRule.Fires, BridgeTransferRule.AlertOf;
      BridgeBucketScan(configs[..n], evm, name, timestampMs);
      var before := Bucket(configs[..n], BridgeTransferRule.KeyOf,
          BridgeTransferRule.RuleKey(evm.chainId, evm.address));
      BridgeTransferRule.MatchingSnoc(before, configs[n], evm, name, timestampMs);
      assert before + [] == before;
    }
  }

  lemma BridgeIndexRefinesScan(configs: seq<BridgeTransferRule.RuleConfig>, all: BridgeTransferRule.Configs, s: Signal)
    requires all.byKey == BuildIndex(configs, BridgeTransferRule.KeyOf)
    ensures BridgeTransferRule.AlertsFor(all, s) ==
            if BridgeTransferRule.ToBridge(all, s)
            then ScanBridge(configs, s.payload.evm,
                BridgeTransferRule.NameOf(all, BridgeTransferRule.Receiver(s.payload.evm)), s.meta.timestampMs)
            else []
  {
    if BridgeTransferRule.ToBridge(all, s) {
      var evm := s.payload.evm;
      var name := BridgeTransferRule.NameOf(all, BridgeTransferRule.Receiver(evm));
      IndexIsBuckets(configs, BridgeTransferRule.KeyOf, BridgeTransferRule.RuleKey(evm.chainId, evm.address));
      BridgeBucketScan(configs, evm, name, s.meta.timestampMs);
    }
  }

  function ScanOracle(
    configs: seq<OracleRule.RuleConfig>, o: OracleEvent, timestampMs: uint64, p: nat, x: nat): seq<Alert>
    requires p > 0
  {
    if configs == [] then []
    else
      var c := configs[|configs| - 1];
      ScanOracle(configs[..|configs| - 1], o, timestampMs, p, x) +
      if FeedOf(c) == OracleRule.KeyOf(o) && c.enabled && OracleRule.Spikes(p, x, c.spikeThresholdBps)
      then [OracleRule.SpikeAlert(c, o, timestampMs, x, OracleRule.DeltaBps(p, x))] else []
  }

  lemma {:induction false} OracleBucketScan(
    configs: seq<OracleRule.RuleConfig>, o: OracleEvent, timestampMs: uint64, p: nat, x: nat)
    requires p > 0
    ensures OracleRule.SpikeAlerts(Bucket(configs, FeedOf, OracleRule.KeyOf(o)), o, timestampMs, p, x)
            == ScanOracle(configs, o, timestampMs, p, x)
  {
    if configs != [] {
      var n := |configs| - 1;
      hide OracleRule.Spikes, OracleRule.SpikeAlert;
      OracleBucketScan(configs[..n], o, timestampMs, p, x);
      var before := Bucket(configs[..n], FeedOf, OracleRule.KeyOf(o));
      OracleRule.SpikeAlertsSnoc(before, configs[n], o, timestampMs, p, x);
      assert before + [] == before;
    }
  }

  /** The lookup in the built index raises the alerts of a scan over all feed settings, whatever
      the rule remembers. */
  lemma OracleIndexRefinesScan(configs: seq<OracleRule.RuleConfig>, last: OracleRule.Memory, s: Signal)
    ensures OracleRule.AlertsFor(BuildIndex(configs, FeedOf), last, s) ==
            if OracleRule.IsUpdate(s) && OracleRule.Accepted(s.payload.oracle.answer)
               && OracleRule.KeyOf(s.payload.oracle) in last && BE(last[OracleRule.KeyOf(s.payload.oracle)].answer) > 0
            then ScanOracle(configs, s.payload.oracle, s.meta.timestampMs,
                            BE(last[OracleRule.KeyOf(s.payload.oracle)].answer), BE(s.payload.oracle.answer))
            else []
  {
    hide BE, ScanOracle;
    if OracleRule.IsUpdate(s) {
      var o := s.payload.oracle;
      var key := OracleRule.KeyOf(o);
      IndexIsBuckets(configs, FeedOf, key);
      if key in last && BE(last[key].answer) > 0 {
        OracleBucketScan(configs, o, s.meta.timestampMs, BE(last[key].answer), BE(o.answer));
      }
    }
  }
}
