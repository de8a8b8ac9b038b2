# Risk Sentinel: a verified model

Risk Sentinel watches a chain. A poller (`EventSource`) reads logs block by block and pushes them as signals
into a bounded ring; a rule engine (`RiskEngine`) takes the signals out, shows each to the rules that asked for
its type, and queues the alerts they raise; a dispatcher (`AlertDispatcher`) takes the alerts off the queue,
drops those its deduplicator recognises, and offers the rest to every channel. A backtest runs the same three
threads over a fixed block interval and shuts them down with a poison pill.

The model follows that pipeline file by file and proves, for all inputs, all node answers and all
interleavings:

- **Numbers.** The decimal printer and parser over 32-byte arrays are inverse to each other; the parser accepts
  exactly the digit strings below 2^256 and each of its two errors has an exact cause; the byte comparison is
  the numeric order; `eth` quantities follow EIP-1474, section "Value encoding".
- **Deduplication.** The sweeping cache decides as a cache that never forgets if and only if the clock meets a
  stated condition (which every non-decreasing clock does); an alert is suppressed exactly when the last sent
  alert with its key is younger than its window; keys are identities for two rule types exactly when neither
  reads as the other plus a chain field; memory is bounded.
- **The poller.** Against a node that may fail, refuse ranges or move its head back, committed batches are
  contiguous and disjoint, every request stays between the cursor and the cached head, a backtest that leaves by
  itself has covered exactly its interval, and it does leave against a node that serves single blocks. Every log of
  a committed batch is pushed at least once, in order; everything pushed belongs to a committed batch, once for each
  log, if and only if no answer of the node starts with a readable log and holds one that is not. Reading from one
  chain, the committed batches hold the chain's logs in block order, whatever failed on the way.
- **Rules.** The oracle rule is characterised over whole traces (latest usable update, basis points without
  rounding or clamping, independent feeds); in any window of a trace a customer hears nothing of a feed if and only
  if every step of it is quiet for all of its configs, which bounds the drift. The engine's output over any run of any rules is written out
  rule by rule, and a log reaches exactly the rules its signature is for. A hexadecimal log and a decimal threshold
  decide an alert by the numbers they write, for transfers, bridge transfers, mints, burns and feed answers. Bucketed lookups and the routing table give what plain
  scans give.
- **The pipeline.** Every interleaving of the four threads keeps all alerts, once each and in order; a run that
  ends through the drain exit hands the channels what the single-threaded program would have; no run is
  infinite; a forced stop can lose everything; a run whose deadlines hold ends well if and only if the dispatcher thread had begun before it was
  told to stop, and every system has runs of both kinds. The classes' loops are tied to the actions of that model.

## How to read it

| file | component |
|---|---|
| `Numbers.dfy` | positional notation: values, digits, powers |
| `Hex.dfy` | the hexadecimal and decimal codecs |
| `Signals.dfy`, `Results.dfy` | the records that travel, and thrown errors as `Result` |
| `Topics.dfy`, `Normalize.dfy` | logs to signals |
| `Kinds.dfy` | what every readable log becomes, by field and by signature |
| `ThresholdRules.dfy`, `OracleRule.dfy` | the rules |
| `BacktestConfig.dfy` | settings and their buckets |
| `Thresholds.dfy`, `Meanings.dfy` | settings and logs together: transfers, mints and burns; bridges and feeds |
| `EventSource.dfy` | the poller |
| `RiskEngine.dfy`, `AlertDispatcher.dfy`, `Deduplicator.dfy` | engine, dispatcher, deduplicator |
| `EngineMeanings.dfy` | what the engine raises, rule by rule |
| `Pipeline.dfy`, `Threads.dfy` | the threads and their shutdown; the loops of the classes as steps of it |
| `BacktestRun.dfy` | poller and pipeline together |

Where the program changes state step by step there is a method or a class, proved equal to a function of the
old state; what the program promises is then proved about that function. Conventions:

- 64-bit and 32-bit registers are bounded integers. A shift followed by an or on disjoint bits is written as
  arithmetic; wherever a register can wrap or truncate, the wrap is written out.
- An exception is a `Failure`; what was already done before it (signals pushed, cursor unmoved) is kept.
- `std::array` values are sequences of fixed length; arrays filled or divided in place are arrays.
- The virtual call of a rule is a datatype of rules. Governance and approval rules are `Stateless`: any mask,
  any pure evaluation.
- The node's answers, the system clock readings (`now`), the outcome of each channel's send, what the poller's
  loop reads off its stop flags, and how many signals the consumer takes off the ring between two tries to push are
  inputs. `stale` is what the uninitialised transaction-hash array of `normalize` holds.
- The minimum batch of the poller is its default of one block (include/sentinel/events/EventSource.hpp:28);
  nothing in the program sets another. `OvershootIff` says what a larger one would do. Block numbers stay below
  2^64 - 1.
- In the thread model an action is a step that changes something: spinning, sleeping and waiting are left out.
  The engine may still take a signal after its flag fell, because the flag can fall between the loop's test and
  the look at the ring.

## Where the code and its words differ

The model follows the code.

- README.md:139 lets the oracle rule fire when a price changes by *more than* the threshold. The code first
  rounds the change down to whole basis points (src/risk/rules/oracle_update_rule.cpp:134-148), so it fires one
  whole basis point later: `DocumentedThresholdIff` gives the exact set of changes on which the two differ,
  `DocumentedThresholdMissed` one of them.
- README.md:135 says a mint or burn must *exceed* its threshold; src/risk/rules/mint_burn_rule.cpp:48-53 alerts
  from the threshold on. The model uses `>=`: `MintBurnDocumentedIff` proves that the two differ on a setting
  exactly when the amount is its threshold, `MintAtThreshold` that for every amount there is such a mint.
- src/risk/alert_deduplicator.cpp:13 states that `|` cannot appear in a key's components. Nothing enforces it;
  `KeysTellApartIff` proves which pairs of rule types are safe, `SomeAreConfusable` that some are not,
  `ShippedKeysAreIdentities` that the six of the program are.
- The readable start of an answer stays pushed when a later log of it fails to normalize, and the next poll asks
  for the same blocks again (src/events/EventSource.cpp:170-184). Everything pushed belongs to a committed batch,
  once for each of its logs, precisely when no answer of the node breaks off, that is, starts with a readable log
  and holds an unreadable one (`ThrowsAfterPushIff`, `ExactlyOnceIff`; `PushedTwice` shows a log pushed twice;
  `ReadableIff` says which logs are readable).
- README.md:455-461 promises that a backtest's file is what a customer would have received. The deduplicator reads
  the system clock (src/risk/alert_dispatcher.cpp:103-108), not block time. `WritesAsReceivedIff` proves that the
  promise holds for every stream of alerts exactly when any two readings are within a window of each other just
  when the two block times are; `SecondTransferMissing` gives two transfers, two minutes apart on the chain, of
  which a backtest that reads its clock twice within a minute writes one.

## Model

| member | source | states |
|---|---|---|
| Hex.NibbleMeaning | include/sentinel/events/utils/hex.hpp:13-21 | the digit characters of either case and their values, written out; the printed digit is the lower-case one |
| Hex.ParseHexUint64 | include/sentinel/events/utils/hex.hpp:48-57 | the accumulator ends as the number the digits write modulo 2^64, or fails for a missing prefix, no digit, or a bad one |
| Hex.Uint64Meaning | include/sentinel/events/utils/hex.hpp:48-57 | which texts are quantities, character by character, which of the two failures the others are, and the value modulo 2^64 |
| Hex.ParseHexBytes | include/sentinel/events/utils/hex.hpp:59-75 | on success the front of the array holds the bytes written; in every case, failures included, exactly the bytes before the end or the first bad pair are overwritten; text past the array is ignored; each failure has its cause |
| Hex.FillPairs | include/sentinel/events/utils/hex.hpp:72-74 | the loop writes pair after pair, stops at the first that is not hexadecimal, and touches nothing else |
| Hex.HexPrefixMeaning | include/sentinel/events/utils/hex.hpp:59-75 | which texts fill an array of n elements: prefix, even length, and digits as far as the array reaches |
| Hex.HexPrefixValue | include/sentinel/events/utils/hex.hpp:69-74 | the bytes written are those of the pairs that fit |
| Hex.ValidateHex | include/sentinel/events/utils/hex.hpp:77-87 | succeeds exactly on prefixed text of even length with hexadecimal digits only, and tells the three faults apart |
| Hex.HexCheckMeaning | include/sentinel/events/utils/hex.hpp:77-87 | which texts are checked, character by character, with the order of the faults |
| Hex.HexBytesValue | include/sentinel/events/utils/hex.hpp:69-74 | the bytes, read base 256, are the number the digits write base 16 |
| Hex.QuantityRoundTrip | include/sentinel/events/utils/hex.hpp:48-91 | every 64-bit number is read back from its quantity |
| Hex.QuantityIsShortest | include/sentinel/events/utils/hex.hpp:89-91 | no shorter text reads as the same number, as EIP-1474 asks of a Quantity |
| Hex.ToBe256 | include/sentinel/events/utils/hex.hpp:93-99 | the eight byte stores build the 32-byte word of the same value |
| Hex.GreaterIsNumeric | include/sentinel/events/utils/hex.hpp:101-104 | memcmp on 32 big-endian bytes is the order of the numbers |
| Hex.MemCmpIsNumeric | include/sentinel/events/utils/hex.hpp:102-104 | the same for any common length, with equality exactly on equal bytes |
| Hex.DivideByTen | include/sentinel/events/utils/hex.hpp:126-135 | one in-place pass leaves the quotient by ten, returns the remainder below ten, and reports zero exactly when the quotient is zero |
| Hex.PrintDigits | include/sentinel/events/utils/hex.hpp:123-140 | the outer loop terminates because the buffer's value falls, and yields the canonical numeral of the value it started from |
| Hex.Uint256BeToDecimal | include/sentinel/events/utils/hex.hpp:107-141 | prints the canonical decimal numeral of any 32-byte word, zero included |
| Hex.DecimalIsCanonical | include/sentinel/events/utils/hex.hpp:107-141 | that numeral writes the value, has no leading zero, and at most 78 digits |
| Hex.MultiplyByTenAndAdd | include/sentinel/events/utils/hex.hpp:152-158 | the inner loop leaves result * 10 + digit with what does not fit in a carry of at most 9 |
| Hex.DecimalToBe256 | include/sentinel/events/utils/hex.hpp:144-164 | the array loops give the word of the value read left to right, or the first fault met |
| Hex.ReadDecimalMeaning | include/sentinel/events/utils/hex.hpp:144-164 | parsing succeeds iff all characters are digits and the number is below 2^256, and then gives that number |
| Hex.InvalidDigitMeaning | include/sentinel/events/utils/hex.hpp:146-149 | the bad-digit error arises iff some non-digit follows digits that still fit |
| Hex.TooLargeMeaning | include/sentinel/events/utils/hex.hpp:159-161 | the overflow error arises iff some all-digit prefix reaches 2^256 |
| Hex.PrintThenParse | include/sentinel/events/utils/hex.hpp:107-164 | parsing the printed form of any 32 bytes gives the same 32 bytes |
| Hex.ParseThenPrint | include/sentinel/events/utils/hex.hpp:107-164 | printing what was parsed gives the text without its leading zeros, "0" when nothing is left |
| Hex.DecimalInjective | src/risk/alert_deduplicator.cpp:17-21 | two numbers with the same decimal text are equal |
| Hex.AddressToHex | src/risk/rules/oracle_update_rule.cpp:27-36 | the two-digit formatting loop prints 0x and the lower-case digits of the bytes |
| Hex.HexOfThenBytes | include/sentinel/events/utils/hex.hpp:59-75 | reading printed bytes gives them back |
| Hex.BytesThenHexOf | include/sentinel/events/utils/hex.hpp:59-75 | printing the bytes of lower-case text gives the text back |
| Hex.FoldUint64 | src/risk/rules/oracle_update_rule.cpp:93-96 | the shifting loop over eight bytes loses no bit |
| Normalize.FillArray | include/sentinel/events/utils/hex.hpp:60-75 | a fixed array after text is parsed into it, untouched bytes kept |
| Normalize.ParseTopics | src/events/normalize.cpp:110-116 | every topic is filled into its own zeroed array, the first bad one failing the log |
| Normalize.DecodeLog | src/events/normalize.cpp:82-132 | the decoding half, with the order of its failures, the index range check, the topic cap and data truncation |
| Normalize.ReadableIff | src/events/normalize.cpp:82-130 | a log becomes a signal iff its text is readable: a condition on the log alone, whatever the chain, the time and the uninitialised hash array |
| Normalize.IndexOutOfRangeIff | src/events/normalize.cpp:95-101 | the index error arises iff block number, hash and indices read and an index needs more than 32 bits |
| Normalize.OnlyStopIsPill | src/risk/risk_engine.cpp:58-66 | of the control signals only the order to stop starts the drain |
| Normalize.NormalizeLog | src/events/normalize.cpp:76-209 | the whole normalization with its classification of transfers, mints, burns, governance and oracle logs |
| Normalize.NeverAPill | src/events/normalize.cpp:134-208 | no log becomes the signal that starts the drain |
| Kinds.LogReads | src/events/normalize.cpp:82-132 | every field of the decoded log comes from its own field of the raw log: block number, hash, both indices, chain, address, up to four topics, data, its size and the truncation flag |
| Kinds.KindMeaning | src/events/normalize.cpp:46-72 | for every readable log the signature alone decides the kind: a transfer or mint/burn iff it is Transfer, an update iff AnswerUpdated, an approval iff Approval, and so for swaps, liquidity changes and governance; without topics it is unknown |
| Kinds.MintBurnIff | src/events/normalize.cpp:160-184 | of the logs with the Transfer signature, which are mints or burns, and which way |
| Kinds.GovernanceMeaning | src/events/normalize.cpp:137-159 | a governance log carries the action its signature names, its chain and its contract |
| Kinds.PayloadMeaning | src/events/normalize.cpp:132-208 | what each kind carries: the whole event, or the amount, token and parties of a mint or burn, or the answer, round and time of an update |
| Thresholds.DecodedTransfer | src/events/normalize.cpp:82-132 | for a well-formed EIP-20 Transfer log (section "Events"), the decoded fields are the numbers its text writes, truncation and zero parties included |
| Thresholds.TransferLogReads | src/events/normalize.cpp:82-130 | such a log becomes a signal iff its block number, hash, 32-bit indices and fourth topic can be read |
| Thresholds.TransferClassified | src/events/normalize.cpp:160-184 | it stays a transfer iff both parties are non-zero; otherwise it is a mint, a burn, or neither when both are zero |
| Thresholds.LargeTransferMeaning | include/sentinel/risk/rules/large_transfer_rule.hpp:33-84 | end to end: alerts exactly for the settings whose chain and token match and whose decimal threshold is below the hexadecimal amount, in order, with the amount's canonical numeral; nothing for a removed or truncated log |
| Thresholds.MintBurnMeaning | src/risk/rules/mint_burn_rule.cpp:19-70 | end to end: a log with exactly one zero party is judged with >= against the mint or the burn threshold through the string-keyed index, any other raises nothing |
| Thresholds.MintBurnDocumentedIff | README.md:135 | on a setting for the log's chain and contract, code and documentation differ iff the amount equals the threshold |
| Thresholds.MintAtThreshold | src/risk/rules/mint_burn_rule.cpp:48-53 | for every 32-byte amount, a readable mint log of exactly the threshold that the code alerts and the documentation does not |
| Meanings.BridgeMeaning | src/risk/rules/bridge_transfer_rule.cpp:25-106 | end to end: a whole, standing transfer between two parties to a known bridge is alerted for exactly the settings of its chain and token whose decimal threshold is below the hexadecimal amount, with the bridge's name; otherwise nothing |
| Meanings.ReceiverText | src/risk/rules/bridge_transfer_rule.cpp:41-48 | the receiver looked up is the address the last forty digits of the third topic write |
| Meanings.AnswerClassified | src/events/normalize.cpp:185-203 | an AnswerUpdated log becomes an update carrying the feed and the answer its text writes |
| Meanings.OracleMeaning | src/risk/rules/oracle_update_rule.cpp:51-183 | end to end: the signed number of the second topic, if from 0 to 2^64 - 1, is alerted against a positive remembered answer for exactly the feed's settings whose threshold the jump passes by a whole basis point, and is remembered iff the feed has settings; any other answer changes nothing |
| LargeTransferRule.Evaluate | include/sentinel/risk/rules/large_transfer_rule.hpp:33-84 | the scan appends the alerts of the configs that match by number, in config order |
| BridgeTransferRule.Evaluate | src/risk/rules/bridge_transfer_rule.cpp:25-106 | nothing unless the receiver is a known bridge; then the alerts of the token's bucket above threshold, in order, with the bridge's name |
| BridgeTransferRule.CustomerAlertedIff | src/risk/rules/bridge_transfer_rule.cpp:67-105 | a customer is alerted iff one of its enabled settings in the bucket is below the amount |
| MintBurnRule.Evaluate | src/risk/rules/mint_burn_rule.cpp:19-70 | the bucket's enabled configs whose mint or burn threshold the amount reaches, in order; nothing for an undirected event |
| MintBurnRule.CustomerAlertedIff | src/risk/rules/mint_burn_rule.cpp:43-69 | a customer is alerted iff an enabled setting of its has a threshold of the event's direction that the amount reaches |
| OracleRule.OracleUpdateRule.Evaluate | src/risk/rules/oracle_update_rule.cpp:51-183 | new memory and appended alerts as functions of old memory and signal, keeping the memory invariant |
| OracleRule.MeasureJump | src/risk/rules/oracle_update_rule.cpp:125-137 | the widened division and the clamp compute the whole basis points between the two prices, whichever is larger |
| OracleRule.AlertBucket | src/risk/rules/oracle_update_rule.cpp:140-175 | the loop appends one alert per enabled config whose threshold the jump passes, in bucket order |
| OracleRule.AcceptedIsLow64 | src/risk/rules/oracle_update_rule.cpp:72-96 | the sign guard and the 24-byte guard accept exactly the int256 answers from 0 to 2^64 - 1, and the low eight bytes are then the answer |
| OracleRule.DeltaDecides | src/risk/rules/oracle_update_rule.cpp:129-148 | the decision is distance * 10000 >= (threshold + 1) * previous: neither rounding nor clamp changes it, and the product fits 128 bits |
| OracleRule.SpikesPlainly | src/risk/rules/oracle_update_rule.cpp:125-148 | the decision over integers: x * 10000 is at least p * (10001 + T) or at most p * (9999 - T) |
| OracleRule.DeltaPlainly | src/risk/rules/oracle_update_rule.cpp:125-137 | the measured jump is the number of whole basis points in the rise or in the fall, clamped at 2^64 - 1 |
| OracleRule.BucketAlertsAreSpikes | src/risk/rules/oracle_update_rule.cpp:142-175 | so the whole bucket is decided by exact arithmetic |
| OracleRule.DocumentedThresholdIff | README.md:139 | code and documentation agree iff the change is not strictly inside the first basis point above the threshold |
| OracleRule.DocumentedThresholdMissed | README.md:139 | from 20000 to 20003 at one basis point the documentation alerts and the code does not |
| OracleRule.FormatPctReads | src/risk/rules/oracle_update_rule.cpp:38-47 | the percentage text is a whole part, a point and two digits, and reads back as the basis points |
| OracleRule.MemoryIsGood | src/risk/rules/oracle_update_rule.cpp:65-70 | over every trace only configured feeds are remembered, with 64-bit answers |
| OracleRule.MemoryIsLatest | src/risk/rules/oracle_update_rule.cpp:98-123 | what is remembered of a feed is its latest usable update in the trace |
| OracleRule.TraceRefinement | src/risk/rules/oracle_update_rule.cpp:51-183 | the alerts at an update are those of the enabled configs that spike against the latest earlier usable update, read off the trace alone |
| OracleRule.SilentOtherwise | src/risk/rules/oracle_update_rule.cpp:51-123 | no alert without a usable answer, a configured feed and a usable predecessor |
| OracleRule.CustomerAlertedIff | src/risk/rules/oracle_update_rule.cpp:142-175 | a customer is alerted iff one of its enabled configs spikes |
| OracleRule.FeedsIndependent | src/risk/rules/oracle_update_rule.cpp:63-123 | a feed's alerts in an interleaved trace are those of the trace filtered to that feed |
| OracleRule.QuietDrift | src/risk/rules/oracle_update_rule.cpp:125-148 | n quiet steps from a positive price move it at most by the n-th power of (10001 + T) / 10000 up, and (9999 - T) / 10000 down |
| OracleRule.MemoryIsLastPrice | src/risk/rules/oracle_update_rule.cpp:98-123 | from any usable update of a feed on, what is remembered is the last price since |
| OracleRule.SilentIffQuiet | src/risk/rules/oracle_update_rule.cpp:98-182 | in any window of any trace that starts at a usable update, a customer hears nothing of the feed iff the window's prices are quiet for all of its enabled configs, whatever came before and whatever other feeds do |
| OracleRule.SilentDrift | src/risk/rules/oracle_update_rule.cpp:98-182 | hence the drift bound for every silent window, measured from the update that starts it |
| BacktestConfig.ToLower | src/backtest/backtest_config.cpp:72-76 | lower-cases every letter in place and nothing else |
| BacktestConfig.ValidateHexAddress | src/backtest/backtest_config.cpp:123-135 | accepts exactly 0x and forty hexadecimal digits |
| BacktestConfig.ParseAddress | src/backtest/backtest_config.cpp:155-157 | lowered, validated and read into twenty bytes |
| BacktestConfig.LowerAddress | src/backtest/backtest_config.cpp:72-76 | lower-casing keeps an address's bytes, and printing those bytes gives the lowered text |
| BacktestConfig.TextKeyIsByteKey | src/risk/rules/mint_burn_rule.cpp:30-41 | the printed key equals the stored lowered text iff the address bytes are equal |
| BacktestConfig.ParseLargeTransfer | src/backtest/backtest_config.cpp:137-162 | the settings in order, or the failure of the first item that does not parse |
| BacktestConfig.ParseMintBurn | src/backtest/backtest_config.cpp:190-222 | the buckets the push_back calls build, or the first failure |
| BacktestConfig.ParseBridgeTransfers | src/backtest/backtest_config.cpp:256-284 | the same for bridge settings |
| BacktestConfig.ParseOracleUpdate | src/backtest/backtest_config.cpp:286-326 | the same for feeds, with the ranges of threshold and decimals |
| BacktestConfig.IndexIsBuckets | src/backtest/backtest_config.cpp:219-220 | an index built by push_back holds under each key exactly the items of that key, in their order |
| BacktestConfig.SectionParses | src/backtest/backtest_config.cpp:143-161 | a section parses iff all its items do, item by item, and else fails as its first bad item |
| BacktestConfig.LargeTransferParses | src/backtest/backtest_config.cpp:152-160 | an item parses iff its token is an address text and its threshold a decimal below 2^256, and what each field becomes |
| BacktestConfig.BridgeParses | src/backtest/backtest_config.cpp:271-282 | the same for bridge settings |
| BacktestConfig.MintBurnParses | src/backtest/backtest_config.cpp:205-220 | the same for both thresholds of a contract |
| BacktestConfig.OracleParses | src/backtest/backtest_config.cpp:301-324 | the same for feeds: thresholds from 1 to 100000 basis points, decimals from 0 to 255 |
| BacktestConfig.MintBurnIndexRefinesScan | src/risk/rules/mint_burn_rule.cpp:37-69 | lookup then bucket gives the alerts of scanning the whole list, in the same order |
| BacktestConfig.BridgeIndexRefinesScan | src/risk/rules/bridge_transfer_rule.cpp:51-105 | the same for bridges |
| BacktestConfig.OracleBucketScan | src/backtest/backtest_config.cpp:323-324 | a feed's bucket gives the alerts of scanning the whole list, in the same order |
| BacktestConfig.OracleIndexRefinesScan | src/risk/rules/oracle_update_rule.cpp:63-175 | lookup in the built index gives the scan's alerts for an accepted update with a positive remembered answer and none otherwise, for any signal and any memory |
| Deduplicator.AlertDeduplicator.constructor | src/risk/alert_deduplicator.cpp:29-34 | the running maximum is the longest configured window |
| Deduplicator.AlertDeduplicator.ShouldSuppress | src/risk/alert_deduplicator.cpp:36-63 | answer and whole new state as functions of the old state, for any clock |
| Deduplicator.AlertDeduplicator.CleanupStaleEntries | src/risk/alert_deduplicator.cpp:65-75 | keeps exactly the entries not older than the longest window; removed + remaining = previous size |
| Deduplicator.KeysTellApartIff | src/risk/alert_deduplicator.cpp:11-25 | keys of two rule types never collide for different alerts iff neither type reads as the other plus a chain field |
| Deduplicator.CollisionIsConfusable | src/risk/alert_deduplicator.cpp:14-25 | any collision across rule types shows such a field |
| Deduplicator.ConfusableCollides | src/risk/alert_deduplicator.cpp:14-25 | and any such pair does collide |
| Deduplicator.SomeAreConfusable | src/risk/alert_deduplicator.cpp:14-25 | a rule type "a" and a longer one, "a" followed by a bar and a dash, do collide |
| Deduplicator.BarFreeKeys | src/risk/alert_deduplicator.cpp:11-25 | without bars in the rule types, keys agree iff customer, rule type, chain and token do |
| Deduplicator.SweepingIsInvisible | src/risk/alert_deduplicator.cpp:36-75 | on a safe clock every decision is that of a map that never evicts |
| Deduplicator.SweepingInvisibleIff | src/risk/alert_deduplicator.cpp:65-75 | safety of the clock is necessary as well: on any other clock some alerts are decided differently |
| Deduplicator.NonDecreasingIsSafe | src/risk/alert_deduplicator.cpp:48-50 | a clock that never runs backwards is safe |
| Deduplicator.SinceSweepIsModulo | src/risk/alert_deduplicator.cpp:56-60 | a sweep comes after every period of max(1, cleanup_every_n_alerts) alerts |
| Deduplicator.RememberIsHistory | src/risk/alert_deduplicator.cpp:45-54 | the never-evicting map holds the time of each key's last sent alert |
| Deduplicator.SuppressedIff | src/risk/alert_deduplicator.cpp:36-63 | suppressed iff the last sent alert with its key is less than its own window old |
| Deduplicator.SuppressedIffDocumented | README.md:162-164 | on a safe clock: suppressed iff some alert with the same four fields was sent within the window |
| Deduplicator.DueIsSent | README.md:162-164 | the documented rule as a definition of its own, without map, keys or sweeps, on a safe clock sends exactly the alerts the deduplicator sends |
| Deduplicator.AlikeIff | README.md:455-461 | the documented rule keeps the same alerts of every stream on two clocks iff their readings are within the same windows of each other; neither clock need be in order |
| Deduplicator.WindowDecides | src/risk/alert_deduplicator.cpp:39-42 | the window that keeps two alerts of one stream apart is the one configured for the rule type, or else the default |
| Deduplicator.SentFarApart | src/risk/alert_deduplicator.cpp:39-54 | on a safe clock any two sent alerts with one key are at least the later one's window apart |
| Deduplicator.TrackedWereSent | src/risk/alert_deduplicator.cpp:45-54 | every tracked entry carries the time its key was really sent at |
| Deduplicator.AfterSweep | src/risk/alert_deduplicator.cpp:65-75 | right after a sweep only keys sent within the longest window are tracked |
| Deduplicator.TrackedGrowth | src/risk/alert_deduplicator.cpp:45-54 | one alert adds at most one key |
| Deduplicator.TrackedKeysBound | src/risk/alert_deduplicator.cpp:56-75 | tracked keys never exceed the keys sent within the longest window before the last sweep plus the period less one |
| EventSource.EventSource.constructor | src/events/EventSource.cpp:13-32 | the initial cursor, head and cold-start flag |
| EventSource.EventSource.Run | src/events/EventSource.cpp:36-66 | the loop's state and pushed signals after its polls; it leaves before a poll iff the flags it reads ask it to or a backtest is past its end, and says which |
| EventSource.EventSource.PushBlocking | src/events/EventSource.cpp:68-76 | however the consumer drains the bounded ring meanwhile, the signal is pushed once and last, nothing else is added or lost, and the ring never holds more than its capacity |
| EventSource.EventSource.PollOnce | src/events/EventSource.cpp:78-194 | state, pushed signals and outcome of a poll for any node answers, thrown errors included |
| EventSource.EventSource.FetchShrinking | src/events/EventSource.cpp:126-148 | the retry loop returns the first answer to the halving requests, or the refusal at the minimum |
| EventSource.EventSource.PushLogs | src/events/EventSource.cpp:170-184 | pushes the normalized logs up to the first that fails |
| EventSource.EventSource.WorkOnce | src/events/EventSource.cpp:121-193 | fetch, push and advance, with the cursor untouched on failure |
| EventSource.PollBranches | src/events/EventSource.cpp:82-118 | which poll asks for the head, what it is then, when a poll throws, jumps or idles, and what it tells the loop |
| EventSource.CommitsIff | src/events/EventSource.cpp:126-193 | a poll commits iff it gets an answer and all of it is readable |
| EventSource.BatchIsFirstServed | src/events/EventSource.cpp:121-148 | the committed batch is the answer to the first request served, the k-th being for the capped rest of the way to the head halved k times |
| EventSource.PollStamps | src/events/EventSource.cpp:150-174 | every pushed signal carries the node's seconds times a thousand, or the system clock when the node gives no time |
| EventSource.FetchLoop | src/events/EventSource.cpp:126-148 | ranges shrink and stay at or above the minimum, the logs answer the last request, and a refusal was at the minimum |
| EventSource.AttemptsHalve | src/events/EventSource.cpp:142-146 | n attempts need a first range of at least 2^(n-1) |
| EventSource.AttemptBound | src/events/EventSource.cpp:122-148 | at most floor(log2(first range)) + 1 attempts |
| EventSource.RequestsStayInside | src/events/EventSource.cpp:122-148 | every attempt starts at the unmoved cursor and ends no later than the cached head and a full batch: a poll cannot depend on any other request |
| EventSource.WorkStaysInside | src/events/EventSource.cpp:115-193 | a working poll commits from the cursor to at most the head, within max_block_range, without underflow or wrap |
| EventSource.PollKeepsSound | src/events/EventSource.cpp:78-194 | one poll keeps the cursor and head invariant, whatever the node says |
| EventSource.AlwaysSound | src/events/EventSource.cpp:36-194 | so does every run |
| EventSource.BatchesContiguous | src/events/EventSource.cpp:78-194 | committed batches follow one another without gap or overlap from the first cursor to the present one |
| EventSource.BatchesWithinRange | src/events/EventSource.cpp:122-124 | no batch is longer than max_block_range |
| EventSource.BacktestOrigin | src/events/EventSource.cpp:95-113 | a backtest starts at its start block, block 0 included |
| EventSource.ConfiguredOrigin | src/events/EventSource.cpp:21 | a configured start is never jumped over |
| EventSource.LiveColdStart | src/events/EventSource.cpp:102-106 | live without a start begins at the first head the node reports |
| EventSource.BacktestCovers | src/events/EventSource.cpp:40-46 | a backtest that left by itself has a block in a batch iff it lies in [start_block, backtest_end_block], and in one batch only |
| EventSource.BatchesReadChain | src/events/EventSource.cpp:78-194 | from a node that answers from one chain, the logs of the committed batches are the chain's from the first cursor to the present one, in block order, whatever failed and however ranges were halved |
| EventSource.BacktestReadsChain | src/events/EventSource.cpp:40-46 | so a backtest that left by itself has read the chain's logs from its start block to its end block, once each |
| EventSource.OvershootIff | src/events/EventSource.cpp:122-124 | batches never pass the head iff min_block_range is at most one |
| EventSource.PushedBeforeCommit | src/events/EventSource.cpp:150-193 | the cursor moves only after every log of the answer to exactly that block range was normalized and pushed, in order; a poll that throws leaves it |
| EventSource.ThrowsAfterPushIff | src/events/EventSource.cpp:170-184 | a poll throws with part of an answer pushed iff the answer starts with a readable log and holds one that is not |
| EventSource.ExactlyOnceIff | src/events/EventSource.cpp:170-187 | what the committed batches deliver is a subsequence of what is pushed, and all of it iff no answer of the node breaks off in that way (a readable log first, an unreadable one later) |
| EventSource.DeliveredCarries | src/events/EventSource.cpp:170-187 | the committed batches deliver one signal for each of their logs, in order |
| EventSource.UnbrokenRunCarries | src/events/EventSource.cpp:170-187 | on answers that do not break off, the pushed signals are one for each log of the committed batches, in order |
| EventSource.PushedTwice | src/events/EventSource.cpp:170-187 | a node for which a log is pushed twice while the cursor stands still |
| EventSource.NoPillPushed | src/events/EventSource.cpp:170-184 | no poll ever pushes the poison pill |
| EventSource.HealthyPollAdvances | src/events/EventSource.cpp:126-187 | a node that serves single-block requests gets the poll forward, through halving if need be |
| EventSource.HealthyBacktestFinishes | src/events/EventSource.cpp:36-66 | against such a node a backtest leaves after at most one poll per block and one for the cold start |
| RiskEngine.Engine.RegisterRule | src/risk/risk_engine.cpp:23-29 | keeps each table row equal to the interested rules in registration order |
| RiskEngine.RoutedIffWants | src/risk/risk_engine.cpp:24-29 | a row holds exactly the rules with that bit, ascending |
| RiskEngine.OneInterest | include/sentinel/risk/signal.hpp:124-126 | a mask made from a type has that type's bit and no other |
| RiskEngine.Engine.ProcessSignal | src/risk/risk_engine.cpp:71-92 | evaluating one row changes the rules and raises the alerts of a scan over all rules |
| RiskEngine.RowIsScanOfPrefix | src/risk/risk_engine.cpp:77-86 | the same for the rules registered so far, the others untouched |
| RiskEngine.RoutingRefinesScan | src/risk/risk_engine.cpp:23-86 | the table is a refinement of showing every signal to every rule |
| EngineMeanings.EngineRaises | src/risk/risk_engine.cpp:48-93 | over any run of any rules, every rule raises on each signal of its kind what its own history says, in registration order, and the oracle rules remember exactly their latest usable answers |
| EngineMeanings.OracleAlone | src/risk/rules/oracle_update_rule.cpp:51-183 | an engine with one oracle rule raises and remembers what the trace theorems of the rule speak of |
| EngineMeanings.WantsMeaning | include/sentinel/risk/signal.hpp:121-126 | which signals each rule asked for |
| EngineMeanings.RaisedByKind | src/risk/risk_engine.cpp:77-86 | an engine with one rule raises what the rule is about on its own kind of signal and nothing on any other |
| EngineMeanings.EngineOnTransfer | src/risk/risk_engine.cpp:77-86 | on a Transfer log the transfer, bridge and mint/burn rules raise what the texts deserve, each only for the logs that are its own |
| EngineMeanings.EngineOnAnswer | src/risk/risk_engine.cpp:77-86 | the same for an AnswerUpdated log and the oracle rule |
| EngineMeanings.OtherLogsAreSilent | src/events/normalize.cpp:46-72 | a log with another signature raises no transfer, bridge, mint/burn or oracle alert, whatever its topics and data |
| EngineMeanings.AlertsNeedWholeLogs | include/sentinel/risk/rules/large_transfer_rule.hpp:40-43 | any of these alerts needs the right signature, two topics more and a slot of data; a transfer or bridge alert also a log neither removed nor truncated |
| AlertDispatcher.Dispatcher.Dispatch | src/risk/alert_dispatcher.cpp:61-66 | appends to the queue and touches nothing else |
| AlertDispatcher.Dispatcher.Start | src/risk/alert_dispatcher.cpp:69 | sets the flag and touches nothing else |
| AlertDispatcher.Dispatcher.Stop | src/risk/alert_dispatcher.cpp:56-59 | clears the flag and touches nothing else |
| AlertDispatcher.Dispatcher.LoopOnce | src/risk/alert_dispatcher.cpp:70-138 | leaves iff stopped with an empty queue; otherwise takes the oldest alert and suppresses it or offers it to all channels |
| AlertDispatcher.Dispatcher.FanOut | src/risk/alert_dispatcher.cpp:119-138 | every channel is offered the alert, a throwing one not excepting the others, and each is counted under its name |
| AlertDispatcher.BooksBalance | src/risk/alert_dispatcher.cpp:94-138 | over any run each handled alert was suppressed or offered to every channel, and for each channel the sends that returned and those that threw add up to the alerts offered |
| AlertDispatcher.FaithfulChannel | src/risk/alert_dispatcher.cpp:119-138 | a channel that never throws receives exactly the surviving alerts, in order |
| AlertDispatcher.SurvivingIsDue | README.md:162-164 | on a safe clock the alerts offered to the channels are those due by the documented rule |
| AlertDispatcher.CountersBalance | src/risk/alert_dispatcher.cpp:108-136 | the exported counters: under each counted channel name sends and failures add up to the alerts offered, once for every channel of that name, and under each counted rule type stand its suppressed alerts |
| AlertDispatcher.CountersFollowBooks | src/risk/alert_dispatcher.cpp:119-136 | each counter by itself: a name's sent counter grows by the sends of its channels that returned, its failed counter by those that threw |
| AlertDispatcher.FaithfulCounters | src/risk/alert_dispatcher.cpp:119-136 | a channel with a name of its own that never throws exports the surviving alerts as sent and none as failed |
| AlertDispatcher.DroppedCounters | src/risk/alert_dispatcher.cpp:108-114 | each counted rule type exports its handled alerts less those let through |
| AlertDispatcher.NamedOnce | src/risk/alert_dispatcher.cpp:43-53 | channels with names of their own are counted apart |
| Pipeline.PillStays | src/backtest/backtest_app.cpp:150-169 | at most one pill, always the last signal, and none behind it |
| Pipeline.ChoreographyStays | src/backtest/backtest_app.cpp:140-185 | which thread can be where, kept by every step |
| Pipeline.ConservedStays | src/risk/risk_engine.cpp:48-102 | every step keeps: alerts raised so far and alerts still to come are those of the single-threaded program, in order |
| Pipeline.StepKeepsInv | src/backtest/backtest_app.cpp:140-185 | all three together, for each action of each thread |
| Pipeline.RunKeepsInv | src/backtest/backtest_app.cpp:140-185 | hence in every reachable state of every interleaving |
| Pipeline.HandledIsPrefix | src/backtest/backtest_app.cpp:140-185 | at every moment of any run, timeouts or not, what was handled is an initial part of the single-threaded program's alerts |
| Pipeline.FinishedAccounts | src/backtest/backtest_app.cpp:171-185 | a finished run lost exactly the alerts of signals left in the ring, and none if the engine drained |
| Pipeline.ForcedStopLosesAll | src/backtest/backtest_app.cpp:158-182 | every system whose signals fit the ring has a finished run with nothing handled: both deadlines pass before the engine looks |
| BacktestRun.BacktestCanLoseAll | src/backtest/backtest_app.cpp:158-182 | so a backtest of up to 65536 signals can write nothing |
| Pipeline.DrainedRunDelivers | src/backtest/backtest_app.cpp:140-185 | after a drain exit every channel was offered, and a faithful one received, exactly the deduplicated alerts of the single-threaded program on the same clock readings |
| Pipeline.DispatcherBooks | src/risk/alert_dispatcher.cpp:61-138 | at every moment dispatched = suppressed + offered + in hand + queued, in order, and each channel accounts for all that was offered |
| Pipeline.StepShrinksWork | src/risk/risk_engine.cpp:48-102 | every step lowers a measure of the work left |
| Pipeline.RunsAreBounded | src/backtest/backtest_app.cpp:140-185 | no interleaving has more than 4 steps a signal, 4 an alert, and 32 more |
| Pipeline.InTimeIsPatient | src/backtest/backtest_app.cpp:158-179 | without a timeout the pill was pushed and the engine leaves only by draining |
| Pipeline.DoomedIffLate | src/risk/alert_dispatcher.cpp:68-92 | a run hangs iff the dispatcher was stopped before its thread set the running flag |
| Pipeline.EverySystemCanHang | src/risk/alert_dispatcher.cpp:69 | every system has a run without timeouts that hangs, because its dispatcher is slow to begin |
| Pipeline.NeverStuck | src/backtest/backtest_app.cpp:140-185 | otherwise some thread can always take a step that is no timeout |
| Pipeline.CompleteRunFinishes | src/backtest/backtest_app.cpp:140-185 | a run that cannot go on without a timeout is finished, with every alert handled, iff the dispatcher was up before it was told to stop |
| Pipeline.Drive | src/backtest/backtest_app.cpp:140-185 | every timely run can be carried on, without a timeout, until it is finished or hangs |
| Pipeline.EverySystemCanFinish | src/backtest/backtest_app.cpp:140-185 | every system has a complete timely run that ends well |
| Threads.RunOn | src/backtest/backtest_app.cpp:140-148 | steps that lead on from where a run stands make a longer run |
| Threads.DispatcherTrip | src/risk/alert_dispatcher.cpp:70-138 | a trip of the class's loop is a take and a handling, an exit, or nothing in the interleaving model, with its state still that of the model |
| Threads.NewDispatcher | src/backtest/backtest_app.cpp:86-93 | a new dispatcher stands where every run begins |
| Threads.DispatcherBegins | src/risk/alert_dispatcher.cpp:68-69 | the thread's first act is the start action, whatever became of the flag before |
| Threads.DispatcherToldToStop | src/backtest/backtest_app.cpp:184 | the order to stop is the main thread's stop action, wherever the dispatcher is |
| Threads.EngineThread.Trip | src/risk/risk_engine.cpp:48-103 | a trip of the engine's loop, with its ring, flags and table, is a pop, one dispatch per alert and a return to the top; or the pill, the drain exit, the stop exit, or nothing |
| Threads.EngineThread.Stop | src/risk/risk_engine.cpp:39 | the order to stop is the main thread's stop action |
| Threads.EngineThread.DispatchAll | src/risk/risk_engine.cpp:88-93 | the dispatch loop hands every alert to the queue, in order, one dispatch step each |
| BacktestRun.SystemIsValid | src/backtest/backtest_app.cpp:150-156 | what the poller pushes never holds a pill, so the drain theorem applies to it |
| BacktestRun.WindowsAreKnown | src/backtest/backtest_app.cpp:77-84 | the longest window of the backtest's deduplicator is one hour |
| BacktestRun.ShippedKeysAreIdentities | src/backtest/backtest_app.cpp:63-84 | for the six rule types of the program keys are identities |
| BacktestRun.ScanAllTypes | src/backtest/backtest_app.cpp:63-84 | the rules of the program only ever raise alerts of those six types |
| BacktestRun.SurvivorsAreDue | src/backtest/backtest_app.cpp:77-84 | with the shipped windows and a safe clock the deduplicator keeps exactly the alerts due by the documented rule |
| BacktestRun.DocumentedWindows | README.md:168-176 | of two alerts alike, the second is written iff it was read at least the documented minutes of its rule type after the first |
| BacktestRun.SweepsEveryHundred | src/backtest/backtest_app.cpp:84 | a backtest sweeps after every hundredth alert |
| BacktestRun.WritesAsReceivedIff | README.md:455-461 | every stream of the program's alerts is written as on block time iff any two readings are within a window of each other just when the block times are |
| BacktestRun.SecondTransferMissing | src/risk/alert_dispatcher.cpp:103-108 | two transfers two minutes apart on the chain: by block time both are kept, on readings a millisecond apart only the first |
| BacktestRun.BacktestDelivers | src/backtest/backtest_app.cpp:140-185 | from node to file: a poller that left by itself covered exactly the interval, in batches that hold the chain's logs in block order, and on unbroken answers pushed one signal for each; a complete, timely run leaves in the channel the single-threaded program's alerts less, on a safe clock, those with the same customer, type, chain and token as one written within the window, and what block time would keep when the readings reach like it |
| BacktestRun.HealthyBacktestDelivers | src/backtest/backtest_app.cpp:140-185 | such backtests exist: against any node that serves single blocks, with enough answers |

## Left out

- The function `parse_topic_literal` runs at compile time on constants; the topics are given as the bytes it yields.
- Thresholds.LargeTransferMeaning: covers logs whose address has 40 digits and whose first three topics have 64; `Normalize.NormalizeLog` covers every log.
- Thresholds.MintBurnMeaning: covers the same well-formed logs, and settings that came through the parser.
- Meanings.BridgeMeaning: covers well-formed logs, too, as does Meanings.OracleMeaning for AnswerUpdated logs.
- EventSource.BatchesContiguous: assumes block numbers below 2^64 - 1 and the default minimum range, as do the other coverage lemmas; `EventSource.OvershootIff` shows the minimum range matters.
- EventSource.EventSource.PushBlocking: after a given number of tries in vain the consumer takes a signal; a ring that stays full for ever appears only in the thread model.
- EventSource.EventSource.Run: the node's answers are a finite list, at whose end the loop may still be running.
- Pipeline.DrainedRunDelivers: needs the drain exit; a forced stop after the deadline may leave signals in the ring (`Pipeline.FinishedAccounts` says what is lost).
- The live application's shutdown, which pushes the pill while its poller may still run (src/app/app.cpp:844-915): no claim that nothing is lost there.
- BacktestRun.BacktestDelivers: takes governance and approval rules to be stateless and to raise only alerts of the program's six types.
- Governance and approval rules one by one, and their settings: lookups of the same shape as mint and burn.
- Bridge contract, customer and customer-id settings: plain field checks; the bridge set and names are given.
- JSON-RPC, HTTP, YAML, PostgreSQL, metrics beyond the alert counters, health, heartbeats, logging, encryption, the admin tool: plumbing around the model.
- The alert formatter and what channels do with an alert: a send succeeds or throws.
- The ring's lock-free internals and memory ordering: it is a bounded queue with one producer at a time and one consumer.
- Exceptions that escape a rule or a thread, and real time: a deadline is an action that may happen at any moment.
- The ingress time stamp of a signal, and the price-tick and pool-snapshot payloads, which no modelled rule reads.
