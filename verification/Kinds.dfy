/** What a raw log becomes, field by field and signature by signature, for every log that can be
    read. */
module Kinds {
  import opened Results
  import opened Numbers
  import opened Hex
  import opened Signals
  import opened Topics
  import opened Normalize

  // ---------------------------------------------------------------- fields

  /** The array of n bytes after text was read into it: the bytes written, then zeros. */
  function Slot(text: string, n: nat): (b: seq<byte>)
    requires HexPrefix(text, n).Success?
    ensures |b| == n
  {
    HexPrefix(text, n).value + Zeros(n - |HexPrefix(text, n).value|)
  }

  lemma FillIsSlot(text: string, n: nat)
    requires HexPrefix(text, n).Success?
    ensures Fill(text, Zeros(n)) == Success(Slot(text, n))
  {
    var k := |HexPrefix(text, n).value|;
    assert Zeros(n)[k..] == Zeros(n - k);
  }

  ghost predicate MetaReads(raw: RawLog, chainId: uint64, timestampMs: uint64, stale: Word, meta: Meta)
    requires Readable(raw)
  {
    && meta.timestampMs == timestampMs && !meta.isFinal && meta.sourceId == chainId % TWO_32
    && meta.blockNumber == Some(HexUint64(raw.blockNumber).value)
    && var hash := HexPrefix(raw.transactionHash, 32).value;
    meta.txHash == Some(hash + stale[|hash|..])
  }

  ghost predicate EventReads(raw: RawLog, chainId: uint64, evm: EvmLog)
    requires Readable(raw)
  {
    && evm.chainId == chainId && evm.removed == raw.removed
    && evm.txIndex == HexUint64(raw.transactionIndex).value && evm.logIndex == HexUint64(raw.logIndex).value
    && evm.address == Slot(raw.address, 20)
    && evm.topicCount == (if |raw.topics| < 4 then |raw.topics| else 4)
    && (forall i :: 0 <= i < evm.topicCount ==> evm.topics[i] == Slot(raw.topics[i], 32))
    && (forall i :: evm.topicCount <= i < 4 ==> evm.topics[i] == Zeros(32))
  }

  ghost predicate DataReads(raw: RawLog, evm: EvmLog)
    requires HexCheck(raw.data).Success?
  {
    && HexPrefix(raw.data, 256).Success? && evm.data == Slot(raw.data, 256)
    && (evm.truncated <==> |raw.data| > 514)
    && evm.dataSize == (if |raw.data| > 514 then 256 else (|raw.data| - 2) / 2)
  }

  lemma {:induction false} TopicSlots(topics: seq<string>, i: nat)
    requires FillTopics(topics).Success? && i < |topics|
    ensures HexPrefix(topics[i], 32).Success? && FillTopics(topics).value[i] == Slot(topics[i], 32)
  {
    hide HexPrefix, Fill;
    var n := |topics| - 1;
    if i == n {
      FilledIsSlot(topics[n]);
    } else {
      TopicSlots(topics[..n], i);
    }
  }

  lemma FilledIsSlot(text: string)
    requires Fill(text, Zeros(32)).Success?
    ensures HexPrefix(text, 32).Success? && Fill(text, Zeros(32)).value == Slot(text, 32)
  {
    FillIsSlot(text, 32);
  }

  /** Every field of the decoded log comes from the field of the raw log it should come from. */
  lemma LogReads(raw: RawLog, chainId: uint64, timestampMs: uint64, stale: Word)
    requires ReadLog(raw, chainId, timestampMs, stale).Success? && Readable(raw)
    ensures var (meta, evm) := ReadLog(raw, chainId, timestampMs, stale).value;
            MetaReads(raw, chainId, timestampMs, stale, meta) && EventReads(raw, chainId, evm) && DataReads(raw, evm)
  {
    hide HexUint64, HexPrefix, FillTopics, HexCheck, Slot;
    FillIsSlot(raw.address, 20);
    CheckedIsPrefixed(raw.data);
    CheckedDataFills(raw.data, MAX_DATA);
    FillIsSlot(raw.data, MAX_DATA);
    var topics := raw.topics[..TopicCount(raw)];
    forall i | 0 <= i < |topics|
      ensures FillTopics(topics).Success? ==> FillTopics(topics).value[i] == Slot(raw.topics[i], 32)
    {
      if FillTopics(topics).Success? {
        TopicSlots(topics, i);
      }
    }
  }

  lemma CheckedIsPrefixed(data: string)
    requires HexCheck(data).Success?
    ensures |data| >= 2 && |data| % 2 == 0
  {
  }

  lemma ReadWhenReadable(raw: RawLog, chainId: uint64, timestampMs: uint64, stale: Word)
    ensures ReadLog(raw, chainId, timestampMs, stale).Success? <==> Readable(raw)
    ensures Normalized(raw, chainId, timestampMs, stale).Success? <==> Readable(raw)
  {
    hide ReadLog, Readable, Interpret;
    ReadableIff(raw, chainId, timestampMs, stale);
  }

  // ---------------------------------------------------------------- signatures

  /** The signature of a log: its first topic, as read. */
  function SignatureOf(raw: RawLog): Word
    requires Readable(raw) && raw.topics != []
  {
    Slot(raw.topics[0], 32)
  }

  lemma FirstBytes()
    ensures TOPIC_TRANSFER[0] == 0xdd && TOPIC_SWAP_V2[0] == 0xd7 && TOPIC_SWAP_V3[0] == 0xc4
    ensures TOPIC_MINT[0] == 0x4c && TOPIC_BURN[0] == 0xdc && TOPIC_OWNERSHIP_TRANSFERRED[0] == 0x8b
    ensures TOPIC_PAUSED[0] == 0x62 && TOPIC_UNPAUSED[0] == 0x5d && TOPIC_ROLE_GRANTED[0] == 0x2f
    ensures TOPIC_ROLE_REVOKED[0] == 0xf6 && TOPIC_UPGRADED[0] == 0xbc && TOPIC_APPROVAL[0] == 0x8c
    ensures TOPIC_ORACLE_ANSWER_UPDATED[0] == 0x05
  {
  }

  /** Each kind of signal has its own signatures. */
  ghost predicate KindOf(kind: SignalType, t: Word) {
    && (kind == SignalType.Governance <==>
         t == TOPIC_OWNERSHIP_TRANSFERRED || t == TOPIC_PAUSED || t == TOPIC_UNPAUSED
         || t == TOPIC_ROLE_GRANTED || t == TOPIC_ROLE_REVOKED || t == TOPIC_UPGRADED)
    && (kind == Transfer || kind == SignalType.MintBurn <==> t == TOPIC_TRANSFER)
    && (kind == Swap <==> t == TOPIC_SWAP_V2 || t == TOPIC_SWAP_V3)
    && (kind == LiquidityChange <==> t == TOPIC_MINT || t == TOPIC_BURN)
    && (kind == Approval <==> t == TOPIC_APPROVAL)
    && (kind == OracleUpdate <==> t == TOPIC_ORACLE_ANSWER_UPDATED)
    && kind !in {Control, PriceTick, PoolSnapshot}
  }

  lemma ClassifiedKind(t: Word)
    ensures KindOf(ClassifyTopic0(t), t) && ClassifyTopic0(t) != SignalType.MintBurn
  {
    FirstBytes();
  }

  /** The governance action of each signature. */
  ghost predicate ActionIs(action: GovernanceAction, t: Word) {
    && (action == OwnershipTransferred <==> t == TOPIC_OWNERSHIP_TRANSFERRED)
    && (action == Paused <==> t == TOPIC_PAUSED)
    && (action == Unpaused <==> t == TOPIC_UNPAUSED)
    && (action == RoleGranted <==> t == TOPIC_ROLE_GRANTED)
    && (action == RoleRevoked <==> t == TOPIC_ROLE_REVOKED)
    && (action == Upgraded <==> t == TOPIC_UPGRADED)
  }

  lemma ActionMeaning(t: Word)
    ensures ActionIs(ActionOf(t), t)
  {
    FirstBytes();
  }

  /** The kind of every log that can be read: the signature alone decides it, except between a
      transfer and a mint or burn; a log without topics is unknown. */
  lemma KindMeaning(raw: RawLog, chainId: uint64, timestampMs: uint64, stale: Word)
    requires Readable(raw) && Normalized(raw, chainId, timestampMs, stale).Success?
    ensures var s := Normalized(raw, chainId, timestampMs, stale).value;
            if raw.topics == [] then s.kind == Unknown else KindOf(s.kind, SignatureOf(raw))
  {
    hide ReadLog, ClassifyTopic0, Readable, Slot, KindOf, BE;
    ReadWhenReadable(raw, chainId, timestampMs, stale);
    LogReads(raw, chainId, timestampMs, stale);
    var evm := ReadLog(raw, chainId, timestampMs, stale).value.1;
    if raw.topics != [] {
      ClassifiedKind(evm.topics[0]);
      SplitKind(evm.topics[0]);
    }
  }

  lemma SplitKind(t: Word)
    ensures ClassifyTopic0(t) == Transfer ==> KindOf(SignalType.MintBurn, t)
  {
    ClassifiedKind(t);
    hide ClassifyTopic0;
  }

  /** Of the logs with the Transfer signature, those with two topics more, a slot of data and a
      zero party are mints or burns: a mint comes from nobody, a burn goes to nobody. */
  lemma MintBurnIff(raw: RawLog, chainId: uint64, timestampMs: uint64, stale: Word)
    requires Readable(raw) && Normalized(raw, chainId, timestampMs, stale).Success?
    ensures var s := Normalized(raw, chainId, timestampMs, stale).value;
            && (s.kind == SignalType.MintBurn <==>
                 && |raw.topics| >= 3 && SignatureOf(raw) == TOPIC_TRANSFER && |raw.data| >= 66
                 && (BE(Slot(raw.topics[1], 32)) == 0 || BE(Slot(raw.topics[2], 32)) == 0))
            && (s.kind == SignalType.MintBurn && s.payload.MintBurnPayload? ==>
                 s.payload.mintBurn.direction ==
                 if BE(Slot(raw.topics[2], 32)) != 0 then Mint
                 else if BE(Slot(raw.topics[1], 32)) != 0 then Burn else NoDirection)
  {
    hide ReadLog, ClassifyTopic0, Readable, Slot, KindOf, BE, HexCheck;
    ReadWhenReadable(raw, chainId, timestampMs, stale);
    LogReads(raw, chainId, timestampMs, stale);
    var evm := ReadLog(raw, chainId, timestampMs, stale).value.1;
    ReadableParts(raw);
    DataLength(raw, evm);
    if raw.topics != [] {
      TransferOnly(evm.topics[0]);
    }
    if |raw.topics| >= 3 {
      ZeroIffZero(Slot(raw.topics[1], 32));
      ZeroIffZero(Slot(raw.topics[2], 32));
    }
  }

  lemma ReadableParts(raw: RawLog)
    requires Readable(raw)
    ensures HexCheck(raw.data).Success?
    ensures forall i :: 0 <= i < |raw.topics| && i < 4 ==> HexPrefix(raw.topics[i], 32).Success?
  {
  }

  lemma DataLength(raw: RawLog, evm: EvmLog)
    requires HexCheck(raw.data).Success? && DataReads(raw, evm)
    ensures evm.dataSize >= 32 <==> |raw.data| >= 66
  {
  }

  lemma TransferOnly(t: Word)
    ensures ClassifyTopic0(t) == Transfer <==> t == TOPIC_TRANSFER
    ensures ClassifyTopic0(t) != SignalType.MintBurn
  {
    ClassifiedKind(t);
    hide ClassifyTopic0;
  }

  lemma ZeroIffZero(w: Word)
    ensures AllZero(w) <==> BE(w) == 0
  {
    if AllZero(w) {
      ZeroWord(w);
    } else {
      var i :| 0 <= i < |w| && w[i] != 0;
      PrefixNonZero(w, i);
    }
  }

  /** What a governance log says: its action, chain and contract. */
  lemma GovernanceMeaning(raw: RawLog, chainId: uint64, timestampMs: uint64, stale: Word)
    requires Readable(raw) && Normalized(raw, chainId, timestampMs, stale).Success?
    ensures var s := Normalized(raw, chainId, timestampMs, stale).value;
            s.kind == SignalType.Governance ==>
              && raw.topics != [] && s.payload.GovernancePayload? && ActionIs(s.payload.action, SignatureOf(raw))
              && s.payload.chainId == chainId && s.payload.contract == Slot(raw.address, 20)
  {
    hide ReadLog, ClassifyTopic0, ActionOf, Readable, Slot, ActionIs, BE;
    ReadWhenReadable(raw, chainId, timestampMs, stale);
    LogReads(raw, chainId, timestampMs, stale);
    var evm := ReadLog(raw, chainId, timestampMs, stale).value.1;
    ActionMeaning(evm.topics[0]);
  }

  /** What every other log carries: the whole event, except a mint or burn and an oracle answer,
      which need three topics and a slot of data and carry those. */
  lemma PayloadMeaning(raw: RawLog, chainId: uint64, timestampMs: uint64, stale: Word)
    requires Readable(raw) && Normalized(raw, chainId, timestampMs, stale).Success?
    ensures var s := Normalized(raw, chainId, timestampMs, stale).value;
            && MetaReads(raw, chainId, timestampMs, stale, s.meta)
            && (s.kind in {Unknown, Swap, Transfer, LiquidityChange, Approval} ==>
                 s.payload.EvmPayload? && EventReads(raw, chainId, s.payload.evm) && DataReads(raw, s.payload.evm))
            && (s.kind == SignalType.MintBurn ==>
                 && |raw.topics| >= 3 && |raw.data| >= 66 && s.payload.MintBurnPayload?
                 && MintBurnReads(raw, chainId, s.payload.mintBurn))
            && (s.kind == OracleUpdate && |raw.topics| >= 3 && |raw.data| >= 66 ==>
                 s.payload.OraclePayload? && OracleReads(raw, chainId, s.payload.oracle))
            && (s.kind == OracleUpdate && !(|raw.topics| >= 3 && |raw.data| >= 66) ==>
                 s.payload.EvmPayload? && EventReads(raw, chainId, s.payload.evm) && DataReads(raw, s.payload.evm))
  {
    hide ReadLog, ClassifyTopic0, ActionOf, Readable, Slot, BE, MetaReads, HexCheck;
    ReadWhenReadable(raw, chainId, timestampMs, stale);
    LogReads(raw, chainId, timestampMs, stale);
    ClassifiedKindOnly(ReadLog(raw, chainId, timestampMs, stale).value.1.topics[0]);
  }

  lemma ClassifiedKindOnly(t: Word)
    ensures ClassifyTopic0(t) != SignalType.MintBurn
  {
    ClassifiedKind(t);
  }

  /** A mint or burn: the first slot of data, and the low twenty bytes of the two parties. */
  ghost predicate MintBurnReads(raw: RawLog, chainId: uint64, e: MintBurnEvent)
    requires Readable(raw) && |raw.topics| >= 3
  {
    && e.chainId == chainId && e.token == Slot(raw.address, 20)
    && HexPrefix(raw.data, 256).Success? && e.amount == Slot(raw.data, 256)[..32]
    && e.from == Slot(raw.topics[1], 32)[12..] && e.to == Slot(raw.topics[2], 32)[12..]
  }

  /** An oracle answer: answer and round are topics, the time is the low eight bytes of the first
      slot of data. */
  ghost predicate OracleReads(raw: RawLog, chainId: uint64, o: OracleEvent)
    requires Readable(raw) && |raw.topics| >= 3
  {
    && o.chainId == chainId && o.aggregator == Slot(raw.address, 20)
    && o.answer == Slot(raw.topics[1], 32) && o.roundId == Slot(raw.topics[2], 32)
    && HexPrefix(raw.data, 256).Success? && o.updatedAt == BE(Slot(raw.data, 256)[24..32])
  }
}
