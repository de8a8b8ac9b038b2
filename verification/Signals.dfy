/** The values that travel through the pipeline: raw logs, signals, alerts
    (include/sentinel/events/RawLog.hpp, include/sentinel/risk/signal.hpp,
    include/sentinel/risk/alert_dispatcher.hpp). */
module Signals {
  import opened Results
  import opened Numbers
  import opened Hex

  type Address = s: seq<byte> | |s| == 20 witness seq(20, _ => 0)

  datatype SignalType =
    | Unknown
    | Swap
    | Transfer
    | MintBurn
    | LiquidityChange
    | PriceTick
    | PoolSnapshot
    | Governance
    | Approval
    | OracleUpdate
    | Control

  const SIGNAL_TYPE_COUNT: nat := 11

  /** The number the enumerator has in memory; it indexes the routing table. */
  function TypeIndex(t: SignalType): (i: nat)
    ensures i < SIGNAL_TYPE_COUNT
  {
    match t
    case Unknown => 0
    case Swap => 1
    case Transfer => 2
    case MintBurn => 3
    case LiquidityChange => 4
    case PriceTick => 5
    case PoolSnapshot => 6
    case Governance => 7
    case Approval => 8
    case OracleUpdate => 9
    case Control => 10
  }

  datatype RawLog = RawLog(
    address: string, topics: seq<string>, data: string, blockNumber: string,
    transactionHash: string, logIndex: string, transactionIndex: string, removed: bool)

  datatype Meta = Meta(
    timestampMs: uint64, blockNumber: Option<uint64>, txHash: Option<Word>, isFinal: bool, sourceId: uint32)

  const MAX_TOPICS := 4
  const MAX_DATA := 256

  const ZERO_WORD: Word := seq(32, _ => 0)

  datatype EvmFields = EvmFields(
    chainId: uint64, txIndex: uint32, logIndex: uint32, removed: bool, address: Address,
    topicCount: nat, topics: seq<Word>, dataSize: nat, data: seq<byte>, truncated: bool)
  {
    predicate WellSized() {
      && topicCount <= |topics| == MAX_TOPICS
      && dataSize <= |data| == MAX_DATA
    }

    /** The first 32-byte slot of the data. */
    function Amount(): Word
      requires WellSized()
    {
      data[..32]
    }
  }

  /** The sizes are those of the fixed arrays of the struct. */
  type EvmLog = e: EvmFields | e.WellSized()
    witness EvmFields(0, 0, 0, false, seq(20, _ => 0), 0, seq(MAX_TOPICS, _ => ZERO_WORD),
                      0, seq(MAX_DATA, _ => 0), false)

  datatype GovernanceAction =
    | UnknownAction
    | OwnershipTransferred
    | Paused
    | Unpaused
    | RoleGranted
    | RoleRevoked
    | Upgraded

  datatype Direction = NoDirection | Mint | Burn

  datatype MintBurnEvent = MintBurnEvent(
    direction: Direction, chainId: uint64, token: Address, amount: Word, from: Address, to: Address)

  datatype OracleEvent = OracleEvent(
    chainId: uint64, aggregator: Address, answer: Word, roundId: Word, updatedAt: uint64)

  datatype Command = Stop | Sync

  datatype Payload =
    | NoPayload
    | EvmPayload(evm: EvmLog)
    | GovernancePayload(action: GovernanceAction, chainId: uint64, contract: Address)
    | ControlPayload(command: Command)
    | MintBurnPayload(mintBurn: MintBurnEvent)
    | OraclePayload(oracle: OracleEvent)

  datatype Signal = Signal(kind: SignalType, meta: Meta, payload: Payload) {
    /** The poison pill: the one signal that starts the engine's drain phase. */
    predicate IsPill() {
      kind == Control && payload == ControlPayload(Stop)
    }
  }

  datatype Alert = Alert(
    customerId: uint64, ruleType: string, message: string, timestampMs: uint64,
    amountDecimal: Option<string>, tokenAddress: Option<string>, chainId: Option<uint64>)
}
