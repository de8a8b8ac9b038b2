/** What the threshold rules mean end to end: a log of hexadecimal text and settings of decimal
    text, judged by the numbers they write. */
module Thresholds {
  import opened Results
  import opened Numbers
  import opened Hex
  import opened Signals
  import opened Topics
  import opened Normalize
  import opened BacktestConfig
  import LargeTransferRule
  import MintBurnRule

  predicate IsWordText(t: string) {
    |t| == 66 && HasPrefix(t) && AllHex(t[2..])
  }

  /** The number a 32-byte topic writes. */
  function WordNumber(t: string): nat
    requires IsWordText(t)
  {
    HexValue(t[2..])
  }

  /** A log with an event signature, two indexed arguments and a first slot of data. */
  predicate WholeLog(raw: RawLog) {
    && IsAddressText(raw.address)
    && |raw.topics| >= 3
    && (forall i :: 0 <= i < 3 ==> IsWordText(raw.topics[i]))
    && |raw.data| >= 66
    && HexCheck(raw.data).Success?
  }

  /** A Transfer log as EIP-20 describes it: the indexed arguments are the parties, the data is the
      amount. */
  predicate TransferLog(raw: RawLog) {
    WholeLog(raw) && HexBytes(raw.topics[0][2..]) == TOPIC_TRANSFER
  }

  /** The amount: the first 64 digits of the data. */
  function AmountNumber(raw: RawLog): nat
    requires |raw.data| >= 66 && HexCheck(raw.data).Success?
  {
    assert forall i :: 0 <= i < 64 ==> raw.data[2..66][i] == raw.data[2..][i];
    HexValue(raw.data[2..66])
  }

  function FromNumber(raw: RawLog): nat
    requires TransferLog(raw)
  {
    WordNumber(raw.topics[1])
  }

  function ToNumber(raw: RawLog): nat
    requires TransferLog(raw)
  {
    WordNumber(raw.topics[2])
  }

  lemma FilledExactly(hex: string, initial: seq<byte>)
    requires HasPrefix(hex) && AllHex(hex[2..]) && |hex| == 2 + 2 * |initial|
    ensures Fill(hex, initial) == Success(HexBytes(hex[2..]))
  {
    assert hex[2..2 + 2 * |initial|] == hex[2..];
    assert HexBytes(hex[2..]) + initial[|initial|..] == HexBytes(hex[2..]);
  }

  lemma {:induction false} FilledTopic(topics: seq<string>, i: nat)
    requires FillTopics(topics).Success? && i < |topics| && IsWordText(topics[i])
    ensures FillTopics(topics).value[i] == HexBytes(topics[i][2..])
  {
    var n := |topics| - 1;
    if i == n {
      FilledExactly(topics[n], Zeros(32));
    } else {
      FilledTopic(topics[..n], i);
    }
  }

  lemma AmountIsText(data: string)
    requires |data| >= 66 && HexCheck(data).Success?
    ensures Fill(data, Zeros(MAX_DATA)).Success?
    ensures AllHex(data[2..66]) && Fill(data, Zeros(MAX_DATA)).value[..32] == HexBytes(data[2..66])
  {
    var k := if (|data| - 2) / 2 < MAX_DATA then (|data| - 2) / 2 else MAX_DATA;
    assert forall i :: 0 <= i < 2 * k ==> data[2..2 + 2 * k][i] == data[2..][i];
    assert forall i :: 0 <= i < 64 ==> data[2..66][i] == data[2..][i] == data[2..2 + 2 * k][i];
  }

  lemma ZeroBytesIffZeroNumber(t: string)
    requires IsWordText(t)
    ensures AllZero(HexBytes(t[2..])) <==> WordNumber(t) == 0
  {
    var b := HexBytes(t[2..]);
    HexBytesValue(t[2..]);
    if AllZero(b) {
      ZeroWord(b);
    } else {
      var i :| 0 <= i < |b| && b[i] != 0;
      PrefixNonZero(b, i);
    }
  }

  /** What the decoded event of a Transfer log says, in terms of its text. */
  lemma DecodedTransfer(raw: RawLog, chainId: uint64, timestampMs: uint64, stale: Word)
    requires TransferLog(raw) && ReadLog(raw, chainId, timestampMs, stale).Success?
    ensures var (meta, evm) := ReadLog(raw, chainId, timestampMs, stale).value;
            && meta.timestampMs == timestampMs && evm.chainId == chainId && evm.removed == raw.removed
            && evm.topicCount >= 3 && evm.dataSize >= 32
            && (evm.truncated <==> |raw.data| > 2 + 2 * MAX_DATA)
            && evm.address == HexBytes(raw.address[2..])
            && evm.topics[0] == TOPIC_TRANSFER
            && (AllZero(evm.topics[1]) <==> FromNumber(raw) == 0)
            && (AllZero(evm.topics[2]) <==> ToNumber(raw) == 0)
            && BE(evm.Amount()) == AmountNumber(raw)
  {
    hide ReadLog, Fill, HexUint64, FillTopics;
    DecodedTopics(raw, chainId, timestampMs, stale);
    DecodedFields(raw, chainId, timestampMs, stale);
    ZeroBytesIffZeroNumber(raw.topics[1]);
    ZeroBytesIffZeroNumber(raw.topics[2]);
    HexBytesValue(raw.data[2..66]);
  }

  ghost predicate FieldsRead(raw: RawLog, chainId: uint64, timestampMs: uint64, meta: Meta, evm: EvmLog)
    requires WholeLog(raw)
  {
    && meta.timestampMs == timestampMs && evm.chainId == chainId && evm.removed == raw.removed
    && evm.topicCount >= 3 && evm.dataSize >= 32
    && (evm.truncated <==> |raw.data| > 2 + 2 * MAX_DATA)
    && evm.address == HexBytes(raw.address[2..])
    && AllHex(raw.data[2..66]) && evm.Amount() == HexBytes(raw.data[2..66])
  }

  lemma DecodedFields(raw: RawLog, chainId: uint64, timestampMs: uint64, stale: Word)
    requires WholeLog(raw) && ReadLog(raw, chainId, timestampMs, stale).Success?
    ensures var (meta, evm) := ReadLog(raw, chainId, timestampMs, stale).value;
            FieldsRead(raw, chainId, timestampMs, meta, evm)
  {
    hide HexUint64, FillTopics, Fill;
    FilledExactly(raw.address, Zeros(20));
    AmountIsText(raw.data);
  }

  ghost predicate TopicsRead(raw: RawLog, evm: EvmLog)
    requires WholeLog(raw)
  {
    forall i :: 0 <= i < 3 ==> evm.topics[i] == HexBytes(raw.topics[i][2..])
  }

  lemma DecodedTopics(raw: RawLog, chainId: uint64, timestampMs: uint64, stale: Word)
    requires WholeLog(raw) && ReadLog(raw, chainId, timestampMs, stale).Success?
    ensures TopicsRead(raw, ReadLog(raw, chainId, timestampMs, stale).value.1)
  {
    hide Fill, HexUint64, HexCheck;
    var evm := ReadLog(raw, chainId, timestampMs, stale).value.1;
    var topics := raw.topics[..TopicCount(raw)];
    forall i | 0 <= i < 3
      ensures evm.topics[i] == HexBytes(raw.topics[i][2..])
    {
      FilledTopic(topics, i);
      assert evm.topics[i] == FillTopics(topics).value[i];
    }
  }

  /** The rest of the log can be read: the block number, the hash as far as it is looked at, both
      indices within 32 bits, and a fourth topic if there is one. */
  predicate ReadableRest(raw: RawLog) {
    && HexUint64(raw.blockNumber).Success?
    && HexPrefix(raw.transactionHash, 32).Success?
    && HexUint64(raw.transactionIndex).Success? && HexUint64(raw.transactionIndex).value < TWO_32
    && HexUint64(raw.logIndex).Success? && HexUint64(raw.logIndex).value < TWO_32
    && (|raw.topics| > 3 ==> HexPrefix(raw.topics[3], 32).Success?)
  }

  /** A Transfer log is turned into a signal exactly when the rest of it can be read. */
  lemma TransferLogReads(raw: RawLog, chainId: uint64, timestampMs: uint64, stale: Word)
    requires TransferLog(raw)
    ensures Normalized(raw, chainId, timestampMs, stale).Success? <==> ReadableRest(raw)
  {
    hide HexUint64, Normalized, HexPrefix;
    ReadableIff(raw, chainId, timestampMs, stale);
    WrittenInFull(raw.address, 20);
    forall i | 0 <= i < 3
      ensures HexPrefix(raw.topics[i], 32).Success?
    {
      WrittenInFull(raw.topics[i], 32);
    }
  }

  lemma WrittenInFull(hex: string, n: nat)
    requires HasPrefix(hex) && AllHex(hex[2..]) && |hex| == 2 + 2 * n
    ensures HexPrefix(hex, n).Success?
  {
    assert hex[2..2 + 2 * n] == hex[2..];
  }

  /** How such a log is classified: an ordinary transfer unless a party is the zero address. */
  lemma TransferClassified(raw: RawLog, chainId: uint64, timestampMs: uint64, stale: Word)
    requires TransferLog(raw) && ReadLog(raw, chainId, timestampMs, stale).Success?
    ensures var (meta, evm) := ReadLog(raw, chainId, timestampMs, stale).value;
            var s := Normalized(raw, chainId, timestampMs, stale).value;
            if FromNumber(raw) != 0 && ToNumber(raw) != 0 then s == Signal(Transfer, meta, EvmPayload(evm))
            else
              && s.kind == SignalType.MintBurn && s.meta == meta && s.payload.MintBurnPayload?
              && s.payload.mintBurn.chainId == chainId
              && s.payload.mintBurn.token == evm.address
              && s.payload.mintBurn.amount == evm.Amount()
              && s.payload.mintBurn.direction == DirectionOf(FromNumber(raw) == 0, ToNumber(raw) == 0)
  {
    DecodedTransfer(raw, chainId, timestampMs, stale);
  }

  // ---------------------------------------------------------------- large transfers

  predicate SameAddress(a: string, b: string) {
    Lower(a) == Lower(b)
  }

  lemma AddressBytesAgree(a: string, b: string)
    requires IsAddressText(a) && IsAddressText(Lower(b))
    ensures HexBytes(a[2..]) == HexBytes(Lower(b)[2..]) <==> SameAddress(a, b)
  {
    LowerAddress(a);
    LowerAddress(Lower(b));
    LowerTwice(b);
  }

  lemma LowerTwice(s: string)
    ensures Lower(Lower(s)) == Lower(s)
  {
  }

  /** The setting is for this chain and token, and the amount is above its threshold. */
  predicate Exceeds(i: ThresholdItem, raw: RawLog, chainId: uint64)
    requires TransferLog(raw)
  {
    && i.chainId == chainId && SameAddress(i.token, raw.address)
    && AllDecimal(i.threshold) && AmountNumber(raw) > DecimalValue(i.threshold)
  }

  function LargeTransferAlert(i: ThresholdItem, raw: RawLog, timestampMs: uint64): Alert
    requires TransferLog(raw)
  {
    Alert(i.customerId, "large_transfer", "Large transfer detected", timestampMs,
          Some(Decimal(AmountNumber(raw))), Some(Lower(raw.address)), Some(i.chainId))
  }

  /** The alerts a Transfer log deserves, read off the texts alone. */
  function DeservedTransfers(items: seq<ThresholdItem>, raw: RawLog, chainId: uint64, timestampMs: uint64): seq<Alert>
    requires TransferLog(raw)
  {
    if items == [] then []
    else
      var i := items[|items| - 1];
      DeservedTransfers(items[..|items| - 1], raw, chainId, timestampMs) +
      if Exceeds(i, raw, chainId) then [LargeTransferAlert(i, raw, timestampMs)] else []
  }

  /** The decoded token and amount are those the log writes. */
  ghost predicate Decoded(raw: RawLog, token: Address, amount: Word)
    requires TransferLog(raw)
  {
    token == HexBytes(raw.address[2..]) && BE(amount) == AmountNumber(raw)
  }

  lemma ThresholdText(s: string)
    requires DecimalToWord(s).Success?
    ensures AllDecimal(s) && BE(DecimalToWord(s).value) == DecimalValue(s)
  {
    ReadDecimalMeaning(s);
    ValueOfWord(ReadDecimal(s).value);
  }

  lemma ItemDeserves(i: ThresholdItem, raw: RawLog, evm: EvmLog, chainId: uint64, timestampMs: uint64)
    requires TransferLog(raw) && LargeTransferOf(i).Success?
    requires evm.chainId == chainId && Decoded(raw, evm.address, evm.Amount())
    ensures var c := LargeTransferOf(i).value;
            && (LargeTransferRule.Fires(c, evm) <==> Exceeds(i, raw, chainId))
            && (Exceeds(i, raw, chainId) ==>
                 LargeTransferRule.AlertOf(c, evm, timestampMs) == LargeTransferAlert(i, raw, timestampMs))
  {
    hide BE, AllDecimal, DecimalValue, Decimal, HexOf, HexBytes, Lower, DecimalToWord, IsAddressText;
    ThresholdText(i.threshold);
    AddressBytesAgree(raw.address, i.token);
    LowerAddress(raw.address);
  }

  lemma {:induction false} MatchingIsDeserved(
    items: seq<ThresholdItem>, raw: RawLog, evm: EvmLog, chainId: uint64, timestampMs: uint64)
    requires TransferLog(raw) && ParseAll(items, LargeTransferOf).Success?
    requires evm.chainId == chainId && Decoded(raw, evm.address, evm.Amount())
    ensures LargeTransferRule.Matching(ParseAll(items, LargeTransferOf).value, evm, timestampMs)
            == DeservedTransfers(items, raw, chainId, timestampMs)
  {
    if items != [] {
      hide Decoded, TransferLog, LargeTransferOf, Exceeds, LargeTransferRule.Fires, LargeTransferRule.AlertOf,
          LargeTransferAlert;
      var n := |items| - 1;
      MatchingIsDeserved(items[..n], raw, evm, chainId, timestampMs);
      var configs := ParseAll(items, LargeTransferOf).value;
      assert configs[..n] == ParseAll(items[..n], LargeTransferOf).value;
      assert configs[n] == LargeTransferOf(items[n]).value;
      ItemDeserves(items[n], raw, evm, chainId, timestampMs);
    }
  }

  /** A large-transfer alert is raised for exactly the settings whose chain and token match and
      whose decimal threshold is below the hexadecimal amount, with that amount in decimal. */
  lemma LargeTransferMeaning(items: seq<ThresholdItem>, raw: RawLog, chainId: uint64, timestampMs: uint64, stale: Word)
    requires TransferLog(raw) && FromNumber(raw) != 0 && ToNumber(raw) != 0
    requires Normalized(raw, chainId, timestampMs, stale).Success? && ParseAll(items, LargeTransferOf).Success?
    ensures var s := Normalized(raw, chainId, timestampMs, stale).value;
            && s.kind == Transfer
            && LargeTransferRule.AlertsFor(ParseAll(items, LargeTransferOf).value, s) ==
               if raw.removed || |raw.data| > 2 + 2 * MAX_DATA then []
               else DeservedTransfers(items, raw, chainId, timestampMs)
  {
    var (meta, evm) := ReadLog(raw, chainId, timestampMs, stale).value;
    DecodedTransfer(raw, chainId, timestampMs, stale);
    TransferClassified(raw, chainId, timestampMs, stale);
    MatchingIsDeserved(items, raw, evm, chainId, timestampMs);
  }

  // ---------------------------------------------------------------- mints and burns

  function ThresholdFor(i: MintBurnItem, isMint: bool): string {
    if isMint then i.mintThreshold else i.burnThreshold
  }

  /** The threshold itself already counts. */
  predicate Deserves(i: MintBurnItem, raw: RawLog, chainId: uint64, isMint: bool)
    requires TransferLog(raw)
  {
    && i.chainId == chainId && SameAddress(i.contract, raw.address)
    && AllDecimal(ThresholdFor(i, isMint)) && AmountNumber(raw) >= DecimalValue(ThresholdFor(i, isMint))
  }

  function MintBurnAlert(i: MintBurnItem, raw: RawLog, chainId: uint64, timestampMs: uint64, isMint: bool): Alert
    requires TransferLog(raw)
  {
    Alert(i.customerId, "mint_burn", if isMint then "Large Mint detected" else "Large Burn detected", timestampMs,
          Some(Decimal(AmountNumber(raw))), Some(Lower(raw.address)), Some(chainId))
  }

  /** The alerts a mint or burn deserves, read off the texts alone. */
  function DeservedMintBurns(
    items: seq<MintBurnItem>, raw: RawLog, chainId: uint64, timestampMs: uint64, isMint: bool): seq<Alert>
    requires TransferLog(raw)
  {
    if items == [] then []
    else
      var i := items[|items| - 1];
      DeservedMintBurns(items[..|items| - 1], raw, chainId, timestampMs, isMint) +
      if Deserves(i, raw, chainId, isMint) then [MintBurnAlert(i, raw, chainId, timestampMs, isMint)] else []
  }

  lemma SettingMatches(i: MintBurnItem, raw: RawLog, e: MintBurnEvent)
    requires TransferLog(raw) && MintBurnOf(i).Success? && Decoded(raw, e.token, e.amount)
    ensures var c := MintBurnOf(i).value;
            && "0x" + HexOf(e.token) == Lower(raw.address)
            && (MintBurnRule.KeyOf(c) == MintBurnRule.EventKey(e)
               <==> i.chainId == e.chainId && SameAddress(i.contract, raw.address))
  {
    hide BE, AllDecimal, DecimalValue, HexOf, HexBytes, Lower, DecimalToWord;
    LowerAddress(raw.address);
  }

  lemma SettingFires(i: MintBurnItem, raw: RawLog, e: MintBurnEvent)
    requires TransferLog(raw) && MintBurnOf(i).Success? && Decoded(raw, e.token, e.amount) && e.direction != NoDirection
    ensures var text := ThresholdFor(i, e.direction == Mint);
            AllDecimal(text) && (MintBurnRule.Fires(MintBurnOf(i).value, e)
                <==> AmountNumber(raw) >= DecimalValue(text))
  {
    hide BE, AllDecimal, DecimalValue, HexOf, HexBytes, Lower, DecimalToWord, CheckAddress;
    ThresholdText(i.mintThreshold);
    ThresholdText(i.burnThreshold);
  }

  lemma SettingDeserves(i: MintBurnItem, raw: RawLog, e: MintBurnEvent, chainId: uint64, timestampMs: uint64)
    requires TransferLog(raw) && MintBurnOf(i).Success?
    requires e.chainId == chainId && Decoded(raw, e.token, e.amount)
    requires e.direction != NoDirection
    ensures var c := MintBurnOf(i).value;
            && (MintBurnRule.KeyOf(c) == MintBurnRule.EventKey(e) && MintBurnRule.Fires(c, e)
                <==> Deserves(i, raw, chainId, e.direction == Mint))
            && MintBurnRule.AlertOf(c, e, timestampMs)
               == MintBurnAlert(i, raw, chainId, timestampMs, e.direction == Mint)
  {
    hide BE, AllDecimal, DecimalValue, Decimal, HexOf, HexBytes, Lower, DecimalToWord, CheckAddress,
        MintBurnRule.Fires, TransferLog;
    SettingMatches(i, raw, e);
    SettingFires(i, raw, e);
    assert MintBurnOf(i).value.customerId == i.customerId;
  }

  lemma {:induction false} ScanIsDeserved(
    items: seq<MintBurnItem>, raw: RawLog, e: MintBurnEvent, chainId: uint64, timestampMs: uint64)
    requires TransferLog(raw) && ParseAll(items, MintBurnOf).Success?
    requires e.chainId == chainId && Decoded(raw, e.token, e.amount)
    requires e.direction != NoDirection
    ensures ScanMintBurn(ParseAll(items, MintBurnOf).value, e, timestampMs)
            == DeservedMintBurns(items, raw, chainId, timestampMs, e.direction == Mint)
  {
    if items != [] {
      var n := |items| - 1;
      var configs := ParseAll(items, MintBurnOf).value;
      hide Decoded, TransferLog, MintBurnOf, Deserves;
      assert configs[..n] == ParseAll(items[..n], MintBurnOf).value;
      assert configs[n] == MintBurnOf(items[n]).value;
      SettingDeserves(items[n], raw, e, chainId, timestampMs);
      ScanIsDeserved(items[..n], raw, e, chainId, timestampMs);
    }
  }

  /** A transfer from or to the zero address is a mint or a burn, and is judged against that
      threshold with >=. A log that is both, or a plain transfer, raises nothing here. */
  lemma MintBurnMeaning(items: seq<MintBurnItem>, raw: RawLog, chainId: uint64, timestampMs: uint64, stale: Word)
    requires TransferLog(raw)
    requires Normalized(raw, chainId, timestampMs, stale).Success? && MintBurnIndex(items).Success?
    ensures var s := Normalized(raw, chainId, timestampMs, stale).value;
            MintBurnRule.AlertsFor(MintBurnIndex(items).value, s) ==
            if (FromNumber(raw) == 0) == (ToNumber(raw) == 0) then []
            else DeservedMintBurns(items, raw, chainId, timestampMs, FromNumber(raw) == 0)
  {
    DecodedTransfer(raw, chainId, timestampMs, stale);
    TransferClassified(raw, chainId, timestampMs, stale);
    var s := Normalized(raw, chainId, timestampMs, stale).value;
    var configs := ParseAll(items, MintBurnOf).value;
    if FromNumber(raw) == 0 || ToNumber(raw) == 0 {
      var e := s.payload.mintBurn;
      MintBurnIndexRefinesScan(configs, s);
      if e.direction != NoDirection {
        ScanIsDeserved(items, raw, e, chainId, timestampMs);
      } else {
        NoDirectionIsSilent(configs, e, timestampMs);
      }
    }
  }

  lemma {:induction false} NoDirectionIsSilent(
    configs: seq<MintBurnRule.RuleConfig>, e: MintBurnEvent, timestampMs: uint64)
    requires e.direction == NoDirection
    ensures ScanMintBurn(configs, e, timestampMs) == []
  {
    if configs != [] {
      NoDirectionIsSilent(configs[..|configs| - 1], e, timestampMs);
    }
  }

  // ---------------------------------------------------------------- a threshold met exactly

  /** The same with the amount above the threshold, as the documentation has it. */
  predicate DeservesAsDocumented(i: MintBurnItem, raw: RawLog, chainId: uint64, isMint: bool)
    requires TransferLog(raw)
  {
    && i.chainId == chainId && SameAddress(i.contract, raw.address)
    && AllDecimal(ThresholdFor(i, isMint)) && AmountNumber(raw) > DecimalValue(ThresholdFor(i, isMint))
  }

  /** Code and documentation differ on a setting of the log's contract exactly when the amount is
      its threshold. */
  lemma MintBurnDocumentedIff(i: MintBurnItem, raw: RawLog, chainId: uint64, isMint: bool)
    requires TransferLog(raw) && i.chainId == chainId && SameAddress(i.contract, raw.address)
    requires AllDecimal(ThresholdFor(i, isMint))
    ensures (Deserves(i, raw, chainId, isMint) <==> DeservesAsDocumented(i, raw, chainId, isMint))
            <==> AmountNumber(raw) != DecimalValue(ThresholdFor(i, isMint))
  {
  }

  function HexWord(w: seq<byte>): string {
    "0x" + HexOf(w)
  }

  lemma HexWordReads(w: seq<byte>)
    ensures HexWord(w)[2..] == HexOf(w) && |HexWord(w)| == 2 + 2 * |w| && HasPrefix(HexWord(w))
    ensures AllHex(HexOf(w)) && HexBytes(HexOf(w)) == w && HexValue(HexOf(w)) == BE(w)
    ensures HexCheck(HexWord(w)).Success?
  {
    hide HexOf, AllHex, HexBytes, HexValue, BE;
    assert HexWord(w)[2..] == HexOf(w);
    HexOfThenBytes(w);
    HexBytesValue(HexOf(w));
  }

  /** A mint of the given amount: a Transfer from the zero address to address 1. */
  function MintOf(amount: Word): RawLog {
    RawLog(HexWord(Zeros(20)), [HexWord(TOPIC_TRANSFER), HexWord(Zeros(32)), HexWord(WordOf(1))], HexWord(amount),
           "0x1", "0x", "0x0", "0x0", false)
  }

  function MintSetting(threshold: string): MintBurnItem {
    MintBurnItem(7, 1, HexWord(Zeros(20)), threshold, "0")
  }

  lemma MintIsTransfer(amount: Word)
    ensures TransferLog(MintOf(amount)) && FromNumber(MintOf(amount)) == 0 && ToNumber(MintOf(amount)) == 1
    ensures AmountNumber(MintOf(amount)) == BE(amount)
  {
    hide HexOf, HexWord, AllHex, HexBytes, HexValue, BE, Padded;
    HexWordReads(Zeros(20));
    HexWordReads(TOPIC_TRANSFER);
    HexWordReads(Zeros(32));
    HexWordReads(WordOf(1));
    HexWordReads(amount);
    ZeroWord(Zeros(32));
    ValueOfWord(1);
    assert HexWord(amount)[2..66] == HexWord(amount)[2..];
  }

  lemma MintIsReadable(amount: Word)
    ensures ReadableRest(MintOf(amount))
  {
    hide HexUint64, HexWord;
    ShortQuantity("0");
    ShortQuantity("1");
    assert "0x" + "0" == "0x0" && "0x" + "1" == "0x1";
    assert "0x"[2..2] == "";
  }

  lemma ShortQuantity(digit: string)
    requires |digit| == 1 && AllHex(digit)
    ensures HexUint64("0x" + digit).Success? && HexUint64("0x" + digit).value < TWO_32
  {
    assert ("0x" + digit)[2..] == digit;
    ValueBound(HexDigits(digit), 16);
  }

  /** The difference is real: for every amount there is a mint of exactly the threshold that the
      code alerts and the documentation does not. */
  lemma MintAtThreshold(amount: Word, timestampMs: uint64, stale: Word)
    ensures var raw, item := MintOf(amount), MintSetting(Decimal(BE(amount)));
            && TransferLog(raw) && !DeservesAsDocumented(item, raw, 1, true)
            && Normalized(raw, 1, timestampMs, stale).Success? && MintBurnIndex([item]).Success?
            && MintBurnRule.AlertsFor(MintBurnIndex([item]).value, Normalized(raw, 1, timestampMs, stale).value)
               == [MintBurnAlert(item, raw, 1, timestampMs, true)]
  {
    var raw, item := MintOf(amount), MintSetting(Decimal(BE(amount)));
    MintIsTransfer(amount);
    MintIsReadable(amount);
    TransferLogReads(raw, 1, timestampMs, stale);
    SettingParses(amount);
    ValueOfDigits(BE(amount), 10);
    MintBurnMeaning([item], raw, 1, timestampMs, stale);
    assert [item][..0] == [];
  }

  lemma SettingParses(amount: Word)
    ensures MintBurnIndex([MintSetting(Decimal(BE(amount)))]).Success?
  {
    var item := MintSetting(Decimal(BE(amount)));
    ContractParses();
    PrintThenParse(amount);
    ZeroParses();
    hide Decimal, DecimalToWord, CheckAddress, HexWord, Lower;
    assert MintBurnOf(item).Success?;
    assert [item][..0] == [];
    assert ParseAll([item][..0], MintBurnOf).Success?;
    assert ParseAll([item], MintBurnOf).Success?;
  }

  lemma ContractParses()
    ensures CheckAddress(Lower(HexWord(Zeros(20)))).Success?
  {
    hide HexOf, HexWord, AllHex, HexBytes, HexValue, BE;
    HexWordReads(Zeros(20));
    LowerAddress(HexWord(Zeros(20)));
  }

  lemma ZeroParses()
    ensures DecimalToWord("0").Success?
  {
    ReadDecimalMeaning("0");
    assert DecimalDigits("0")[..0] == [];
  }
}
