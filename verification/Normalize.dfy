/** From a raw log of hexadecimal text to a signal (src/events/normalize.cpp). */
module Normalize {
  import opened Results
  import opened Numbers
  import opened Hex
  import opened Signals
  import opened Topics

  function ClassifyTopic0(topic0: Word): SignalType {
    if topic0 == TOPIC_TRANSFER then Transfer
    else if topic0 == TOPIC_SWAP_V2 then Swap
    else if topic0 == TOPIC_SWAP_V3 then Swap
    else if topic0 == TOPIC_MINT then LiquidityChange
    else if topic0 == TOPIC_BURN then LiquidityChange
    else if ActionOf(topic0) != UnknownAction then SignalType.Governance
    else if topic0 == TOPIC_APPROVAL then Approval
    else if topic0 == TOPIC_ORACLE_ANSWER_UPDATED then OracleUpdate
    else Unknown
  }

  function ActionOf(topic0: Word): GovernanceAction {
    if topic0 == TOPIC_OWNERSHIP_TRANSFERRED then OwnershipTransferred
    else if topic0 == TOPIC_PAUSED then Paused
    else if topic0 == TOPIC_UNPAUSED then Unpaused
    else if topic0 == TOPIC_ROLE_GRANTED then RoleGranted
    else if topic0 == TOPIC_ROLE_REVOKED then RoleRevoked
    else if topic0 == TOPIC_UPGRADED then Upgraded
    else UnknownAction
  }

  function Zeros(n: nat): (z: seq<byte>)
    ensures |z| == n
  {
    seq(n, _ => 0)
  }

  predicate AllZero(b: seq<byte>) {
    forall i :: 0 <= i < |b| ==> b[i] == 0
  }

  /** A fixed array after hexadecimal text was parsed into it. */
  function Fill(hex: string, initial: seq<byte>): (r: Result<seq<byte>>)
    ensures r.Success? ==> |r.value| == |initial|
  {
    var b :- HexPrefix(hex, |initial|);
    Success(b + initial[|b|..])
  }

  function FillTopics(topics: seq<string>): (r: Result<seq<Word>>)
    ensures r.Success? ==> |r.value| == |topics|
  {
    if topics == [] then Success([])
    else
      var n := |topics| - 1;
      var init :- FillTopics(topics[..n]);
      var last :- Fill(topics[n], Zeros(32));
      Success(init + [last])
  }

  function TopicCount(raw: RawLog): nat {
    if |raw.topics| < MAX_TOPICS then |raw.topics| else MAX_TOPICS
  }

  function PadTopics(topics: seq<Word>): (t: seq<Word>)
    requires |topics| <= MAX_TOPICS
    ensures |t| == MAX_TOPICS && topics <= t
  {
    topics + seq(MAX_TOPICS - |topics|, _ => Zeros(32))
  }

  /** The decoding half: text to metadata and event. The hash array is not initialised by the
      program; stale is whatever it holds before it is filled. */
  function ReadLog(raw: RawLog, chainId: uint64, timestampMs: uint64, stale: Word): (r: Result<(Meta, EvmLog)>)
  {
    var blockNumber :- HexUint64(raw.blockNumber);
    var txHash :- Fill(raw.transactionHash, stale);
    var txi :- HexUint64(raw.transactionIndex);
    var lgi :- HexUint64(raw.logIndex);
    if txi >= TWO_32 || lgi >= TWO_32 then Failure(IndexOutOfRange)
    else
      var address :- Fill(raw.address, Zeros(20));
      var topics :- FillTopics(raw.topics[..TopicCount(raw)]);
      var _ :- HexCheck(raw.data);
      var data :- Fill(raw.data, Zeros(MAX_DATA));
      Success((Meta(timestampMs, Some(blockNumber), Some(txHash), false, chainId % TWO_32),
               Event(raw, chainId, txi, lgi, address, topics, data)))
  }

  /** The event struct; data beyond its array is dropped and flagged. */
  function Event(
    raw: RawLog, chainId: uint64, txi: uint32, lgi: uint32, address: Address, topics: seq<Word>,
    data: seq<byte>): EvmLog
    requires |topics| == TopicCount(raw) && |raw.data| >= 2 && |data| == MAX_DATA
  {
    var byteLen := (|raw.data| - 2) / 2;
    EvmFields(chainId, txi, lgi, raw.removed, address, |topics|, PadTopics(topics),
              if byteLen > MAX_DATA then MAX_DATA else byteLen, data, byteLen > MAX_DATA)
  }

  function DirectionOf(isMint: bool, isBurn: bool): Direction {
    if isMint && isBurn then NoDirection else if isMint then Mint else Burn
  }

  /** The classifying half. */
  function Interpret(meta: Meta, evm: EvmLog): (s: Signal)
    ensures s.kind != Control
  {
    if evm.topicCount == 0 then Signal(Unknown, meta, EvmPayload(evm))
    else
      var kind := ClassifyTopic0(evm.topics[0]);
      if kind == SignalType.Governance then
        Signal(kind, meta, GovernancePayload(ActionOf(evm.topics[0]), evm.chainId, evm.address))
      else if kind == Transfer && evm.topicCount >= 3 then
        var isMint, isBurn := AllZero(evm.topics[1]), AllZero(evm.topics[2]);
        if (isMint || isBurn) && evm.dataSize >= 32 then
          Signal(SignalType.MintBurn, meta, MintBurnPayload(MintBurnEvent(
            DirectionOf(isMint, isBurn), evm.chainId, evm.address, evm.Amount(), evm.topics[1][12..],
            evm.topics[2][12..])))
        else Signal(kind, meta, EvmPayload(evm))
      else if kind == OracleUpdate && evm.topicCount >= 3 && evm.dataSize >= 32 then
        LowBytesFit(evm.data[24..32]);
        Signal(kind, meta, OraclePayload(OracleEvent(
          evm.chainId, evm.address, evm.topics[1], evm.topics[2], BE(evm.data[24..32]))))
      else Signal(kind, meta, EvmPayload(evm))
  }

  lemma LowBytesFit(b: seq<byte>)
    requires |b| == 8
    ensures BE(b) < TWO_64
  {
    ValueBound(b, 256);
    WidthBounds();
  }

  function Normalized(raw: RawLog, chainId: uint64, timestampMs: uint64, stale: Word): Result<Signal> {
    var (meta, evm) :- ReadLog(raw, chainId, timestampMs, stale);
    Success(Interpret(meta, evm))
  }

  // ---------------------------------------------------------------- which logs can be read

  /** Everything the decoder looks at is well written: block number, indices within 32 bits,
      data throughout, and hash, address and up to four topics as far as their arrays reach. */
  predicate Readable(raw: RawLog) {
    && HexUint64(raw.blockNumber).Success?
    && HexPrefix(raw.transactionHash, 32).Success?
    && HexUint64(raw.transactionIndex).Success? && HexUint64(raw.transactionIndex).value < TWO_32
    && HexUint64(raw.logIndex).Success? && HexUint64(raw.logIndex).value < TWO_32
    && HexPrefix(raw.address, 20).Success?
    && (forall i :: 0 <= i < TopicCount(raw) ==> HexPrefix(raw.topics[i], 32).Success?)
    && HexCheck(raw.data).Success?
  }

  /** A log becomes a signal exactly when it is readable, whatever the chain, the time and the
      array the hash is read into. */
  lemma ReadableIff(raw: RawLog, chainId: uint64, timestampMs: uint64, stale: Word)
    ensures Normalized(raw, chainId, timestampMs, stale).Success? <==> Readable(raw)
  {
    hide HexUint64, HexPrefix, FillTopics, Interpret, Event;
    TopicsReadable(raw.topics[..TopicCount(raw)]);
    if HexCheck(raw.data).Success? {
      CheckedDataFills(raw.data, MAX_DATA);
    }
  }

  /** The one failure that is not a matter of characters: an index beyond 32 bits. */
  lemma IndexOutOfRangeIff(raw: RawLog, chainId: uint64, timestampMs: uint64, stale: Word)
    ensures Normalized(raw, chainId, timestampMs, stale) == Failure(IndexOutOfRange) <==>
            && HexUint64(raw.blockNumber).Success? && HexPrefix(raw.transactionHash, 32).Success?
            && HexUint64(raw.transactionIndex).Success? && HexUint64(raw.logIndex).Success?
            && (HexUint64(raw.transactionIndex).value >= TWO_32 || HexUint64(raw.logIndex).value >= TWO_32)
  {
    FailuresOfHex(raw);
    hide HexUint64, HexPrefix, FillTopics, HexCheck, Interpret, Event;
  }

  lemma FailuresOfHex(raw: RawLog)
    ensures HexUint64(raw.blockNumber) != Failure(IndexOutOfRange)
            && HexUint64(raw.logIndex) != Failure(IndexOutOfRange)
    ensures HexUint64(raw.transactionIndex) != Failure(IndexOutOfRange)
    ensures forall s: string, n: nat :: HexPrefix(s, n) != Failure(IndexOutOfRange)
    ensures HexCheck(raw.data) != Failure(IndexOutOfRange)
    ensures forall n :: 0 <= n <= |raw.topics| ==> FillTopics(raw.topics[..n]) != Failure(IndexOutOfRange)
  {
    hide AllHex, HexBytes, HexValue;
    forall n | 0 <= n <= |raw.topics|
      ensures FillTopics(raw.topics[..n]) != Failure(IndexOutOfRange)
    {
      TopicsFailAsHex(raw.topics[..n]);
    }
  }

  lemma {:induction false} TopicsFailAsHex(topics: seq<string>)
    ensures FillTopics(topics) != Failure(IndexOutOfRange)
  {
    hide AllHex, HexBytes;
    if topics != [] {
      TopicsFailAsHex(topics[..|topics| - 1]);
    }
  }

  /** Of the control signals only the order to stop is a pill. */
  lemma OnlyStopIsPill(s: Signal)
    ensures s.IsPill() <==> s.kind == Control && s.payload.ControlPayload? && s.payload.command == Command.Stop
    ensures !Signal(Control, s.meta, ControlPayload(Sync)).IsPill()
  {
  }

  lemma {:induction false} TopicsReadable(topics: seq<string>)
    ensures FillTopics(topics).Success? <==> forall i :: 0 <= i < |topics| ==> HexPrefix(topics[i], 32).Success?
  {
    hide HexPrefix;
    if topics != [] {
      var n := |topics| - 1;
      TopicsReadable(topics[..n]);
      assert forall i :: 0 <= i < n ==> topics[..n][i] == topics[i];
    }
  }

  lemma CheckedDataFills(data: string, n: nat)
    requires HexCheck(data).Success?
    ensures HexPrefix(data, n).Success?
  {
    var k := if (|data| - 2) / 2 < n then (|data| - 2) / 2 else n;
    assert forall i :: 0 <= i < 2 * k ==> data[2..2 + 2 * k][i] == data[2..][i];
  }

  // ---------------------------------------------------------------- the steps of the program

  method FillArray(hex: string, initial: seq<byte>) returns (r: Result<seq<byte>>)
    ensures r == Fill(hex, initial)
  {
    var a := new byte[|initial|](i requires 0 <= i < |initial| => initial[i]);
    assert a[..] == initial;
    var outcome := ParseHexBytes(hex, a);
    if outcome.Failure? {
      return Failure(outcome.error);
    }
    return Success(a[..]);
  }

  method ParseTopics(topics: seq<string>) returns (r: Result<seq<Word>>)
    ensures r == FillTopics(topics)
  {
    var words: seq<Word> := [];
    for i := 0 to |topics|
      invariant FillTopics(topics[..i]) == Success(words)
    {
      assert topics[..i + 1][..i] == topics[..i];
      var word := FillArray(topics[i], Zeros(32));
      if word.Failure? {
        FailedTopics(topics, i + 1);
        return Failure(word.error);
      }
      words := words + [word.value];
    }
    assert topics[..|topics|] == topics;
    return Success(words);
  }

  lemma {:induction false} FailedTopics(topics: seq<string>, k: nat)
    requires k <= |topics| && FillTopics(topics[..k]).Failure?
    ensures FillTopics(topics) == Failure(FillTopics(topics[..k]).error)
  {
    if k == |topics| {
      assert topics[..k] == topics;
    } else {
      var q := topics[..|topics| - 1];
      assert q[..k] == topics[..k];
      FailedTopics(q, k);
    }
  }

  method DecodeLog(raw: RawLog, chainId: uint64, timestampMs: uint64, stale: Word) returns (r: Result<(Meta, EvmLog)>)
    ensures r == ReadLog(raw, chainId, timestampMs, stale)
  {
    hide HexUint64, Fill, FillTopics, Event;
    var blockNumber :- ParseHexUint64(raw.blockNumber);
    var txHash :- FillArray(raw.transactionHash, stale);
    var txi :- ParseHexUint64(raw.transactionIndex);
    var lgi :- ParseHexUint64(raw.logIndex);
    if txi >= TWO_32 || lgi >= TWO_32 {
      return Failure(IndexOutOfRange);
    }
    var address :- FillArray(raw.address, Zeros(20));
    var tc := if |raw.topics| < MAX_TOPICS then |raw.topics| else MAX_TOPICS;
    var topics :- ParseTopics(raw.topics[..tc]);
    var _ :- ValidateHex(raw.data);
    var data :- FillArray(raw.data, Zeros(MAX_DATA));
    var meta := Meta(timestampMs, Some(blockNumber), Some(txHash), false, chainId % TWO_32);
    return Success((meta, Event(raw, chainId, txi, lgi, address, topics, data)));
  }

  method NormalizeLog(raw: RawLog, chainId: uint64, timestampMs: uint64, stale: Word) returns (r: Result<Signal>)
    ensures r == Normalized(raw, chainId, timestampMs, stale)
  {
    var decoded :- DecodeLog(raw, chainId, timestampMs, stale);
    var (meta, evm) := decoded;
    var kind, payload := Unknown, EvmPayload(evm);
    if evm.topicCount > 0 {
      kind := ClassifyTopic0(evm.topics[0]);
      if kind == SignalType.Governance {
        payload := GovernancePayload(ActionOf(evm.topics[0]), evm.chainId, evm.address);
      } else if kind == Transfer && evm.topicCount >= 3 {
        var isMint, isBurn := AllZero(evm.topics[1]), AllZero(evm.topics[2]);
        if (isMint || isBurn) && evm.dataSize >= 32 {
          kind := SignalType.MintBurn;
          payload := MintBurnPayload(MintBurnEvent(
            DirectionOf(isMint, isBurn), evm.chainId, evm.address, evm.data[..32], evm.topics[1][12..],
            evm.topics[2][12..]));
        }
      } else if kind == OracleUpdate && evm.topicCount >= 3 && evm.dataSize >= 32 {
        var updatedAt := FoldUint64(evm.data[24..32]);
        payload := OraclePayload(OracleEvent(evm.chainId, evm.address, evm.topics[1], evm.topics[2], updatedAt));
      }
    }
    return Success(Signal(kind, meta, payload));
  }

  /** No log turns into a poison pill, whatever it says. */
  lemma NeverAPill(raw: RawLog, chainId: uint64, timestampMs: uint64, stale: Word)
    ensures var r := Normalized(raw, chainId, timestampMs, stale);
            r.Success? ==> !r.value.IsPill()
  {
  }
}
