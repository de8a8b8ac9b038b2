/** The stateful oracle rule (src/risk/rules/oracle_update_rule.cpp): one remembered
    observation per configured feed, alerts on jumps measured in basis points. */
module OracleRule {
  import opened Results
  import opened Numbers
  import opened Hex
  import opened Signals

  datatype FeedKey = FeedKey(chainId: uint64, aggregator: Address)

  datatype RuleConfig = RuleConfig(
    customerId: uint64, chainId: uint64, aggregator: Address, feedLabel: string,
    spikeThresholdBps: uint32, decimals: byte, enabled: bool)

  datatype Observation = Observation(answer: Word, updatedAt: uint64)

  type Configs = map<FeedKey, seq<RuleConfig>>
  type Memory = map<FeedKey, Observation>

  function KeyOf(o: OracleEvent): FeedKey {
    FeedKey(o.chainId, o.aggregator)
  }

  // ---------------------------------------------------------------- answers as numbers

  /** An int256 in two's complement. */
  function Signed(w: Word): int {
    if w[0] < 128 then BE(w) else BE(w) - TWO_256
  }

  /** The 24 high bytes are clear; the sign bit is among them. */
  predicate Accepted(answer: Word) {
    forall i :: 0 <= i < 24 ==> answer[i] == 0
  }

  lemma AcceptedIsLow64(answer: Word)
    ensures Accepted(answer) <==> 0 <= Signed(answer) < TWO_64
    ensures Accepted(answer) ==> BE(answer[24..]) == BE(answer) == Signed(answer)
  {
    var high, low := answer[..24], answer[24..];
    assert answer == high + low;
    ValueConcat(high, low, 256);
    ValueBound(low, 256);
    WidthBounds();
    WordBound(answer);
    if Accepted(answer) {
      ZeroWord(high);
    } else {
      var i :| 0 <= i < 24 && answer[i] != 0;
      PrefixNonZero(high, i);
      MulMonotone(1, BE(high), TWO_64);
    }
  }

  // ---------------------------------------------------------------- basis points

  function Distance(x: nat, p: nat): nat {
    if x > p then x - p else p - x
  }

  /** The jump in whole basis points, as the 128-bit division and the clamp to 64 bits leave it. */
  function DeltaBps(p: nat, x: nat): uint64
    requires p > 0
  {
    var wide := Distance(x, p) * 10000 / p;
    if wide > TWO_64 - 1 then TWO_64 - 1 else wide
  }

  /** The decision, without division or clamp: one whole basis point past the threshold. */
  predicate Spikes(p: nat, x: nat, threshold: nat) {
    p > 0 && Distance(x, p) * 10000 >= (threshold + 1) * p
  }

  /** The decision in plain terms: a rise or a fall of at least threshold + 1 basis points. */
  lemma SpikesPlainly(p: nat, x: nat, threshold: nat)
    requires p > 0
    ensures Spikes(p, x, threshold) <==>
            x * 10000 >= p * (10001 + threshold) || x * 10000 <= p * (9999 - threshold)
  {
    assert p * (10001 + threshold) == 10000 * p + (threshold + 1) * p;
    assert p * (9999 - threshold) == 10000 * p - (threshold + 1) * p;
  }

  /** The measured jump in plain terms: the whole basis points in the rise or the fall, or the
      largest 64-bit number when there are as many or more. */
  lemma DeltaPlainly(p: nat, x: nat)
    requires p > 0
    ensures var d := DeltaBps(p, x);
            if x >= p then d * p <= (x - p) * 10000 && (d < TWO_64 - 1 ==> (x - p) * 10000 < (d + 1) * p)
            else d * p <= (p - x) * 10000 && (d < TWO_64 - 1 ==> (p - x) * 10000 < (d + 1) * p)
  {
    var n, d: nat := Distance(x, p) * 10000, DeltaBps(p, x);
    assert n == if x >= p then (x - p) * 10000 else (p - x) * 10000;
    QuotientWithin(n, p);
    MulMonotone(d, n / p, p);
  }

  lemma QuotientWithin(n: nat, p: nat)
    requires p > 0
    ensures (n / p) * p <= n < (n / p + 1) * p
  {
    DivIdentity(n, p);
  }

  lemma QuotientAbove(n: nat, p: nat, t: nat)
    requires p > 0
    ensures n / p > t <==> n >= (t + 1) * p
  {
    var q := n / p;
    DivIdentity(n, p);
    if q > t {
      MulMonotone(t + 1, q, p);
    } else {
      MulMonotone(q + 1, t + 1, p);
    }
  }

  /** Neither the rounding nor the clamp changes a decision, and the product fits 128 bits. */
  lemma DeltaDecides(p: uint64, x: uint64, threshold: uint32)
    requires p > 0
    ensures DeltaBps(p, x) > threshold <==> Spikes(p, x, threshold)
    ensures Distance(x, p) * 10000 < 0x8000_0000_0000_0000_0000_0000_0000_0000
  {
    QuotientAbove(Distance(x, p) * 10000, p, threshold);
  }

  /** The documentation promises an alert on any change above the threshold. The code rounds the
      change down to whole basis points first, and differs exactly in the last fraction of one. */
  lemma DocumentedThresholdIff(p: nat, x: nat, threshold: nat)
    requires p > 0
    ensures (Spikes(p, x, threshold) <==> Distance(x, p) * 10000 > threshold * p)
            <==> !(threshold * p < Distance(x, p) * 10000 < threshold * p + p)
  {
    assert (threshold + 1) * p == threshold * p + p;
  }

  lemma DocumentedThresholdMissed()
    ensures !Spikes(20000, 20003, 1) && Distance(20003, 20000) * 10000 > 1 * 20000
  {
    DocumentedThresholdIff(20000, 20003, 1);
  }

  /** delta / 100 and two digits for the rest. */
  function FormatPct(deltaBps: nat): string {
    Decimal(deltaBps / 100) + "." + Hundredths(deltaBps % 100)
  }

  function Hundredths(frac: nat): string {
    (if frac < 10 then "0" else "") + Decimal(frac)
  }

  /** The percentage text is the whole part, a point, and exactly two digits that complete it. */
  lemma FormatPctReads(deltaBps: nat)
    ensures var s, n := FormatPct(deltaBps), |Decimal(deltaBps / 100)|;
            && |s| == n + 3 && s[n] == '.' && AllDecimal(s[..n]) && AllDecimal(s[n + 1..])
            && DecimalValue(s[..n]) * 100 + DecimalValue(s[n + 1..]) == deltaBps
  {
    var whole, tail := Decimal(deltaBps / 100), Hundredths(deltaBps % 100);
    var s, n := FormatPct(deltaBps), |whole|;
    assert s == whole + "." + tail;
    assert s[..n] == whole && s[n + 1..] == tail;
    HundredthsReads(deltaBps % 100);
    ValueOfDigits(deltaBps / 100, 10);
  }

  lemma HundredthsReads(frac: nat)
    requires frac < 100
    ensures |Hundredths(frac)| == 2 && AllDecimal(Hundredths(frac)) && DecimalValue(Hundredths(frac)) == frac
  {
    TwoDigits(frac);
    ValueOfDigits(frac, 10);
    if frac < 10 {
      assert DecimalDigits(Hundredths(frac)) == [0] + Digits(frac, 10);
      ValueConcat([0], Digits(frac, 10), 10);
      assert [0][..0] == [];
    } else {
      assert Hundredths(frac) == Decimal(frac);
    }
  }

  lemma TwoDigits(n: nat)
    requires n < 100
    ensures |Digits(n, 10)| == if n < 10 then 1 else 2
  {
    if n >= 10 {
      assert n / 10 < 10;
    }
  }

  // ---------------------------------------------------------------- one signal

  function SpikeAlert(c: RuleConfig, o: OracleEvent, timestampMs: uint64, current: nat, deltaBps: nat): Alert {
    Alert(c.customerId, "oracle_update", "Oracle spike on " + c.feedLabel + ": " + FormatPct(deltaBps) + "% change",
          timestampMs, Some(Decimal(current)), Some("0x" + HexOf(o.aggregator)), Some(o.chainId))
  }

  /** The alerts of a bucket, in its order. */
  function SpikeAlerts(bucket: seq<RuleConfig>, o: OracleEvent, timestampMs: uint64, p: nat, x: nat): seq<Alert>
    requires p > 0
  {
    if bucket == [] then []
    else
      var c := bucket[|bucket| - 1];
      SpikeAlerts(bucket[..|bucket| - 1], o, timestampMs, p, x) +
      if c.enabled && Spikes(p, x, c.spikeThresholdBps) then [SpikeAlert(c, o, timestampMs, x, DeltaBps(p, x))] else []
  }

  lemma SpikeAlertsSnoc(bucket: seq<RuleConfig>, c: RuleConfig, o: OracleEvent, timestampMs: uint64, p: nat, x: nat)
    requires p > 0
    ensures SpikeAlerts(bucket + [c], o, timestampMs, p, x)
            == SpikeAlerts(bucket, o, timestampMs, p, x)
               + if c.enabled && Spikes(p, x, c.spikeThresholdBps)
                 then [SpikeAlert(c, o, timestampMs, x, DeltaBps(p, x))] else []
  {
    hide Spikes, SpikeAlert, DeltaBps;
    assert (bucket + [c])[..|bucket|] == bucket;
  }

  /** The same, from the measured jump. */
  function BucketAlerts(
    bucket: seq<RuleConfig>, o: OracleEvent, timestampMs: uint64, x: nat, deltaBps: nat): seq<Alert> {
    if bucket == [] then []
    else
      var c := bucket[|bucket| - 1];
      BucketAlerts(bucket[..|bucket| - 1], o, timestampMs, x, deltaBps) +
      if c.enabled && deltaBps > c.spikeThresholdBps then [SpikeAlert(c, o, timestampMs, x, deltaBps)] else []
  }

  lemma {:induction false} BucketAlertsAreSpikes(
    bucket: seq<RuleConfig>, o: OracleEvent, timestampMs: uint64, p: uint64, x: uint64)
    requires p > 0
    ensures BucketAlerts(bucket, o, timestampMs, x, DeltaBps(p, x)) == SpikeAlerts(bucket, o, timestampMs, p, x)
  {
    if bucket != [] {
      BucketAlertsAreSpikes(bucket[..|bucket| - 1], o, timestampMs, p, x);
      DeltaDecides(p, x, bucket[|bucket| - 1].spikeThresholdBps);
    }
  }

  predicate IsUpdate(s: Signal) {
    s.kind == OracleUpdate && s.payload.OraclePayload?
  }

  /** The update counts: it is for a configured feed and its answer is a 64-bit number. */
  predicate Counts(configs: Configs, s: Signal) {
    IsUpdate(s) && KeyOf(s.payload.oracle) in configs && Accepted(s.payload.oracle.answer)
  }

  function NextMemory(configs: Configs, last: Memory, s: Signal): Memory {
    if Counts(configs, s) then
      var o := s.payload.oracle;
      last[KeyOf(o) := Observation(o.answer, o.updatedAt)]
    else last
  }

  function AlertsFor(configs: Configs, last: Memory, s: Signal): seq<Alert> {
    if Counts(configs, s) && KeyOf(s.payload.oracle) in last && BE(last[KeyOf(s.payload.oracle)].answer) > 0 then
      var o := s.payload.oracle;
      SpikeAlerts(configs[KeyOf(o)], o, s.meta.timestampMs, BE(last[KeyOf(o)].answer), BE(o.answer))
    else []
  }

  /** What every reachable memory satisfies: only configured feeds, only 64-bit answers. */
  predicate GoodMemory(configs: Configs, last: Memory) {
    last.Keys <= configs.Keys && forall k :: k in last ==> Accepted(last[k].answer)
  }

  class OracleUpdateRule {
    const configsByFeed: Configs
    var lastByFeed: Memory

    predicate Valid()
      reads this
    {
      GoodMemory(configsByFeed, lastByFeed)
    }

    constructor (configs: Configs)
      ensures Valid() && configsByFeed == configs && lastByFeed == map[]
    {
      configsByFeed := configs;
      lastByFeed := map[];
    }

    /** Appends the alerts of one signal to the engine's list and moves the baseline. */
    method Evaluate(signal: Signal, out: seq<Alert>) returns (alerts: seq<Alert>)
      requires Valid()
      modifies this
      ensures Valid()
      ensures lastByFeed == NextMemory(configsByFeed, old(lastByFeed), signal)
      ensures alerts == out + AlertsFor(configsByFeed, old(lastByFeed), signal)
    {
      alerts := out;
      if signal.kind != OracleUpdate || !signal.payload.OraclePayload? {
        return;
      }
      var oracle := signal.payload.oracle;
      var key := KeyOf(oracle);
      if key !in configsByFeed {
        return;
      }
      if oracle.answer[0] >= 128 {
        return;
      }
      for i := 0 to 24
        invariant forall j :: 0 <= j < i ==> oracle.answer[j] == 0
      {
        if oracle.answer[i] != 0 {
          return;
        }
      }
      AcceptedIsLow64(oracle.answer);
      var current := FoldUint64(oracle.answer[24..]);
      if key !in lastByFeed {
        lastByFeed := lastByFeed[key := Observation(oracle.answer, oracle.updatedAt)];
        return;
      }
      AcceptedIsLow64(lastByFeed[key].answer);
      var prev := FoldUint64(lastByFeed[key].answer[24..]);
      if prev == 0 {
        lastByFeed := lastByFeed[key := Observation(oracle.answer, oracle.updatedAt)];
        return;
      }
      var deltaBps := MeasureJump(prev, current);
      alerts := AlertBucket(configsByFeed[key], oracle, signal.meta.timestampMs, current, deltaBps, out);
      BucketAlertsAreSpikes(configsByFeed[key], oracle, signal.meta.timestampMs, prev, current);
      lastByFeed := lastByFeed[key := Observation(oracle.answer, oracle.updatedAt)];
    }
  }

  /** The loop over the bucket, for a jump already measured. */
  method AlertBucket(bucket: seq<RuleConfig>, oracle: OracleEvent, timestampMs: uint64,
                     current: uint64, deltaBps: uint64, out: seq<Alert>)
    returns (alerts: seq<Alert>)
    ensures alerts == out + BucketAlerts(bucket, oracle, timestampMs, current, deltaBps)
  {
    alerts := out;
    for k := 0 to |bucket|
      invariant alerts == out + BucketAlerts(bucket[..k], oracle, timestampMs, current, deltaBps)
    {
      var c := bucket[k];
      assert bucket[..k + 1][..k] == bucket[..k];
      if !c.enabled || deltaBps <= c.spikeThresholdBps {
        continue;
      }
      var aggregatorHex := AddressToHex(oracle.aggregator);
      var msg := "Oracle spike on " + c.feedLabel + ": " + FormatPct(deltaBps) + "% change";
      alerts := alerts + [Alert(c.customerId, "oracle_update", msg, timestampMs,
                                Some(Decimal(current)), Some(aggregatorHex), Some(oracle.chainId))];
    }
    assert bucket[..|bucket|] == bucket;
  }

  method MeasureJump(prev: uint64, current: uint64) returns (deltaBps: uint64)
    requires prev > 0
    ensures deltaBps == DeltaBps(prev, current)
    ensures current >= prev ==> deltaBps * prev <= (current - prev) * 10000
                                && (deltaBps < TWO_64 - 1 ==> (current - prev) * 10000 < (deltaBps + 1) * prev)
    ensures current < prev ==> deltaBps * prev <= (prev - current) * 10000
                               && (deltaBps < TWO_64 - 1 ==> (prev - current) * 10000 < (deltaBps + 1) * prev)
  {
    DeltaPlainly(prev, current);
    var diff := if current > prev then current - prev else prev - current;
    assert diff == Distance(current, prev);
    var scaled: nat := diff * 10000;
    var wide: nat := scaled / prev;
    deltaBps := if wide > TWO_64 - 1 then TWO_64 - 1 else wide;
  }

  // ---------------------------------------------------------------- whole traces

  function MemoryAfter(configs: Configs, trace: seq<Signal>): Memory {
    if trace == [] then map[]
    else NextMemory(configs, MemoryAfter(configs, trace[..|trace| - 1]), trace[|trace| - 1])
  }

  function AlertsAt(configs: Configs, trace: seq<Signal>, i: nat): seq<Alert>
    requires i < |trace|
  {
    AlertsFor(configs, MemoryAfter(configs, trace[..i]), trace[i])
  }

  lemma {:induction false} MemoryIsGood(configs: Configs, trace: seq<Signal>)
    ensures GoodMemory(configs, MemoryAfter(configs, trace))
  {
    if trace != [] {
      MemoryIsGood(configs, trace[..|trace| - 1]);
    }
  }

  predicate UpdateOf(s: Signal, feed: FeedKey) {
    IsUpdate(s) && KeyOf(s.payload.oracle) == feed && 0 <= Signed(s.payload.oracle.answer) < TWO_64
  }

  /** Event j carries the latest usable answer of the feed before event i. */
  ghost predicate LatestBefore(trace: seq<Signal>, feed: FeedKey, j: nat, i: nat)
    requires j < i <= |trace|
  {
    UpdateOf(trace[j], feed) && forall m :: j < m < i ==> !UpdateOf(trace[m], feed)
  }

  lemma {:induction false} MemoryIsLatest(configs: Configs, trace: seq<Signal>, feed: FeedKey, i: nat)
    requires i <= |trace| && feed in configs
    ensures var last := MemoryAfter(configs, trace[..i]);
            && (feed in last ==>
                 exists j :: 0 <= j < i && LatestBefore(trace, feed, j, i)
                             && var o := trace[j].payload.oracle; last[feed] == Observation(o.answer, o.updatedAt))
            && (feed !in last ==> forall j :: 0 <= j < i ==> !UpdateOf(trace[j], feed))
    decreases i
  {
    if i > 0 {
      hide BE, Signed, Accepted;
      assert trace[..i][..i - 1] == trace[..i - 1];
      MemoryIsLatest(configs, trace, feed, i - 1);
      if IsUpdate(trace[i - 1]) {
        AcceptedIsLow64(trace[i - 1].payload.oracle.answer);
      }
      if UpdateOf(trace[i - 1], feed) {
        assert LatestBefore(trace, feed, i - 1, i);
      } else if feed in MemoryAfter(configs, trace[..i]) {
        var j :| 0 <= j < i - 1 && LatestBefore(trace, feed, j, i - 1)
                 && MemoryAfter(configs, trace[..i - 1])[feed]
                    == Observation(trace[j].payload.oracle.answer, trace[j].payload.oracle.updatedAt);
        assert LatestBefore(trace, feed, j, i);
      }
    }
  }

  /** The rule against the trace alone: with j the latest usable update before i, the alerts at i
      are those of the enabled configs, in bucket order, whose threshold the jump passes by a
      whole basis point. */
  lemma TraceRefinement(configs: Configs, trace: seq<Signal>, feed: FeedKey, j: nat, i: nat)
    requires j < i < |trace| && feed in configs
    requires UpdateOf(trace[i], feed) && LatestBefore(trace, feed, j, i)
    ensures var p, x := Signed(trace[j].payload.oracle.answer), Signed(trace[i].payload.oracle.answer);
            AlertsAt(configs, trace, i) ==
            if p > 0 then SpikeAlerts(configs[feed], trace[i].payload.oracle, trace[i].meta.timestampMs, p, x) else []
  {
    MemoryIsLatest(configs, trace, feed, i);
    AcceptedIsLow64(trace[i].payload.oracle.answer);
    AcceptedIsLow64(trace[j].payload.oracle.answer);
  }

  /** And nothing is alerted on a signal that has no usable answer or no usable predecessor. */
  lemma SilentOtherwise(configs: Configs, trace: seq<Signal>, i: nat)
    requires i < |trace|
    requires !IsUpdate(trace[i]) || KeyOf(trace[i].payload.oracle) !in configs
             || !UpdateOf(trace[i], KeyOf(trace[i].payload.oracle))
             || forall j :: 0 <= j < i ==> !UpdateOf(trace[j], KeyOf(trace[i].payload.oracle))
    ensures AlertsAt(configs, trace, i) == []
  {
    if Counts(configs, trace[i]) {
      AcceptedIsLow64(trace[i].payload.oracle.answer);
      MemoryIsLatest(configs, trace, KeyOf(trace[i].payload.oracle), i);
    }
  }

  /** A customer is alerted exactly when one of its enabled configs in the bucket spikes. */
  lemma {:induction false} CustomerAlertedIff(
    bucket: seq<RuleConfig>, o: OracleEvent, timestampMs: uint64, p: nat, x: nat, customer: uint64)
    requires p > 0
    ensures (exists a :: a in SpikeAlerts(bucket, o, timestampMs, p, x) && a.customerId == customer)
            <==> exists c :: c in bucket && c.customerId == customer && c.enabled && Spikes(p, x, c.spikeThresholdBps)
  {
    if bucket != [] {
      var q, c := bucket[..|bucket| - 1], bucket[|bucket| - 1];
      CustomerAlertedIff(q, o, timestampMs, p, x, customer);
      assert bucket == q + [c];
      var alert := SpikeAlert(c, o, timestampMs, x, DeltaBps(p, x));
      if c.customerId == customer && c.enabled && Spikes(p, x, c.spikeThresholdBps) {
        assert alert in SpikeAlerts(bucket, o, timestampMs, p, x);
      }
    }
  }

  // ---------------------------------------------------------------- feeds do not interfere

  predicate ForFeed(s: Signal, feed: FeedKey) {
    IsUpdate(s) && KeyOf(s.payload.oracle) == feed
  }

  function OnlyFeed(trace: seq<Signal>, feed: FeedKey): seq<Signal> {
    if trace == [] then []
    else
      var s := trace[|trace| - 1];
      OnlyFeed(trace[..|trace| - 1], feed) + if ForFeed(s, feed) then [s] else []
  }

  /** The alerts a trace raises on the signals of one feed, in order. */
  function FeedAlerts(configs: Configs, trace: seq<Signal>, feed: FeedKey): seq<Alert> {
    if trace == [] then []
    else
      var n := |trace| - 1;
      FeedAlerts(configs, trace[..n], feed) +
      if ForFeed(trace[n], feed) then AlertsFor(configs, MemoryAfter(configs, trace[..n]), trace[n]) else []
  }

  ghost predicate SameFeedMemory(a: Memory, b: Memory, feed: FeedKey) {
    (feed in a <==> feed in b) && (feed in a ==> a[feed] == b[feed])
  }

  /** A feed is alerted in an interleaved trace exactly as if the other feeds were not there. */
  lemma {:induction false} FeedsIndependent(configs: Configs, trace: seq<Signal>, feed: FeedKey)
    ensures FeedAlerts(configs, trace, feed) == FeedAlerts(configs, OnlyFeed(trace, feed), feed)
    ensures SameFeedMemory(MemoryAfter(configs, trace), MemoryAfter(configs, OnlyFeed(trace, feed)), feed)
  {
    if trace != [] {
      var n := |trace| - 1;
      var q, s := trace[..n], trace[n];
      FeedsIndependent(configs, q, feed);
      if ForFeed(s, feed) {
        var only := OnlyFeed(q, feed) + [s];
        assert only[..|only| - 1] == OnlyFeed(q, feed);
        assert only == OnlyFeed(trace, feed);
      } else {
        assert OnlyFeed(trace, feed) == OnlyFeed(q, feed);
        assert FeedAlerts(configs, trace, feed) == FeedAlerts(configs, q, feed);
      }
    }
  }

  // ---------------------------------------------------------------- slow drift stays bounded

  /** The usable answers of a feed, in order. */
  function Prices(trace: seq<Signal>, feed: FeedKey): (p: seq<nat>) {
    if trace == [] then []
    else
      var s := trace[|trace| - 1];
      Prices(trace[..|trace| - 1], feed) + if UpdateOf(s, feed) then [Signed(s.payload.oracle.answer)] else []
  }

  /** No price is a whole basis point past the threshold away from the one before it. */
  ghost predicate Quiet(prices: seq<nat>, threshold: nat) {
    forall i :: 0 <= i < |prices| - 1 ==> prices[i] > 0 && !Spikes(prices[i], prices[i + 1], threshold)
  }

  lemma QuietStep(p: nat, x: nat, threshold: nat)
    requires p > 0 && !Spikes(p, x, threshold)
    ensures x * 10000 <= p * (10001 + threshold)
    ensures threshold <= 9999 ==> p * (9999 - threshold) <= x * 10000
  {
    assert (threshold + 1) * p == p * (10001 + threshold) - 10000 * p;
    if threshold <= 9999 {
      assert p * (9999 - threshold) == 10000 * p - (threshold + 1) * p;
    }
  }

  lemma {:induction false} QuietDrift(prices: seq<nat>, threshold: nat)
    requires prices != [] && Quiet(prices, threshold)
    ensures var n := |prices| - 1;
            && prices[n] * Pow(10000, n) <= prices[0] * Pow(10001 + threshold, n)
            && (threshold <= 9999 ==> prices[0] * Pow(9999 - threshold, n) <= prices[n] * Pow(10000, n))
  {
    var n := |prices| - 1;
    if n > 0 {
      QuietDrift(prices[..n], threshold);
      QuietStep(prices[n - 1], prices[n], threshold);
      Compound(prices[n], 10000, prices[n - 1], 10001 + threshold, Pow(10000, n - 1),
               prices[0], Pow(10001 + threshold, n - 1));
      if threshold <= 9999 {
        Compound(prices[0], Pow(9999 - threshold, n - 1), prices[n - 1], Pow(10000, n - 1), 9999 - threshold,
                 prices[n], 10000);
      }
    }
  }

  /** One ratio on top of another: x*a <= y*b and y*c <= z*d give x*(a*c) <= z*(b*d). */
  lemma Compound(x: nat, a: nat, y: nat, b: nat, c: nat, z: nat, d: nat)
    requires x * a <= y * b && y * c <= z * d
    ensures x * (a * c) <= z * (b * d)
    ensures x * (c * a) <= z * (d * b)
  {
    MulMonotone(x * a, y * b, c);
    MulMonotone(y * c, z * d, b);
    assert x * (a * c) == (x * a) * c;
    assert (y * b) * c == (y * c) * b;
    assert (z * d) * b == z * (b * d);
    assert a * c == c * a && b * d == d * b;
  }

  /** From any usable update on, what the rule remembers of the feed is the last price since. */
  lemma {:induction false} MemoryIsLastPrice(configs: Configs, trace: seq<Signal>, feed: FeedKey, lo: nat, hi: nat)
    requires feed in configs && lo < hi <= |trace| && UpdateOf(trace[lo], feed)
    ensures var last, prices := MemoryAfter(configs, trace[..hi]), Prices(trace[lo..hi], feed);
            prices != [] && feed in last && BE(last[feed].answer) == prices[|prices| - 1]
    decreases hi
  {
    var n := hi - 1;
    assert trace[..hi][..n] == trace[..n] && trace[lo..hi][..n - lo] == trace[lo..n];
    if n > lo {
      MemoryIsLastPrice(configs, trace, feed, lo, n);
    }
    if IsUpdate(trace[n]) {
      AcceptedIsLow64(trace[n].payload.oracle.answer);
    }
  }

  /** The customer hears nothing of the feed after event lo and before event hi. */
  ghost predicate Silent(configs: Configs, trace: seq<Signal>, feed: FeedKey, customer: uint64, lo: nat, hi: nat)
    requires lo < hi <= |trace|
  {
    forall i, a :: lo < i < hi && ForFeed(trace[i], feed) && a in AlertsAt(configs, trace, i)
        ==> a.customerId != customer
  }

  ghost predicate AllQuiet(bucket: seq<RuleConfig>, customer: uint64, prices: seq<nat>) {
    forall c :: c in bucket && c.customerId == customer && c.enabled ==> Quiet(prices, c.spikeThresholdBps)
  }

  /** A price may be followed by another: only the last of a window may be zero. */
  predicate PositiveBeforeLast(prices: seq<nat>) {
    forall k :: 0 <= k < |prices| - 1 ==> prices[k] > 0
  }

  /** In any window that starts at a usable update, a customer hears nothing of the feed exactly
      when the prices of the window are quiet for all of its enabled configs. What came before,
      other feeds and other customers make no difference. */
  lemma {:induction false} SilentIffQuiet(
    configs: Configs, trace: seq<Signal>, feed: FeedKey, customer: uint64, lo: nat, hi: nat)
    requires feed in configs && lo < hi <= |trace| && UpdateOf(trace[lo], feed)
    requires PositiveBeforeLast(Prices(trace[lo..hi], feed))
    ensures Silent(configs, trace, feed, customer, lo, hi)
            <==> AllQuiet(configs[feed], customer, Prices(trace[lo..hi], feed))
    decreases hi
  {
    var n := hi - 1;
    PricesSnoc(trace, feed, lo, n);
    if n > lo {
      hide Silent, AllQuiet, Prices, PositiveBeforeLast, MemoryAfter, AlertsAt, BE, Signed;
      var before := Prices(trace[lo..n], feed);
      PositiveUpTo(before, if UpdateOf(trace[n], feed) then [Signed(trace[n].payload.oracle.answer)] else []);
      SilentIffQuiet(configs, trace, feed, customer, lo, n);
      MemoryIsLastPrice(configs, trace, feed, lo, n);
      SilentStep(configs, trace, feed, customer, n, before);
      SilentSnoc(configs, trace, feed, customer, lo, n);
    }
  }

  lemma PricesSnoc(trace: seq<Signal>, feed: FeedKey, lo: nat, n: nat)
    requires lo <= n < |trace|
    ensures Prices(trace[lo..n + 1], feed)
            == Prices(trace[lo..n], feed)
               + if UpdateOf(trace[n], feed) then [Signed(trace[n].payload.oracle.answer)] else []
  {
    assert trace[lo..n + 1][..n - lo] == trace[lo..n];
  }

  lemma PositiveUpTo(before: seq<nat>, more: seq<nat>)
    requires PositiveBeforeLast(before + more) && |more| <= 1
    ensures PositiveBeforeLast(before)
    ensures before != [] && more != [] ==> before[|before| - 1] > 0
  {
    forall k | 0 <= k < |before| + |more| - 1
      ensures (before + more)[k] > 0
    {
    }
    assert forall k :: 0 <= k < |before| ==> (before + more)[k] == before[k];
  }

  lemma SilentSnoc(configs: Configs, trace: seq<Signal>, feed: FeedKey, customer: uint64, lo: nat, n: nat)
    requires lo < n < |trace|
    ensures Silent(configs, trace, feed, customer, lo, n + 1) <==>
            && Silent(configs, trace, feed, customer, lo, n)
            && forall a :: ForFeed(trace[n], feed) && a in AlertsAt(configs, trace, n) ==> a.customerId != customer
  {
    hide AlertsAt;
  }

  /** One more event: an alert for the customer exactly when it ends the quiet of some config. */
  lemma SilentStep(configs: Configs, trace: seq<Signal>, feed: FeedKey, customer: uint64, n: nat, before: seq<nat>)
    requires feed in configs && n < |trace| && before != []
    requires feed in MemoryAfter(configs, trace[..n])
    requires BE(MemoryAfter(configs, trace[..n])[feed].answer) == before[|before| - 1]
    requires UpdateOf(trace[n], feed) ==> before[|before| - 1] > 0 && PositiveBeforeLast(before)
    ensures var prices := before + if UpdateOf(trace[n], feed) then [Signed(trace[n].payload.oracle.answer)] else [];
            AllQuiet(configs[feed], customer, before)
              && (forall a :: ForFeed(trace[n], feed) && a in AlertsAt(configs, trace, n) ==> a.customerId != customer)
            <==> AllQuiet(configs[feed], customer, prices)
  {
    var s, p := trace[n], before[|before| - 1];
    if UpdateOf(s, feed) {
      var o, x := s.payload.oracle, Signed(s.payload.oracle.answer);
      AcceptedIsLow64(o.answer);
      assert AlertsAt(configs, trace, n) == SpikeAlerts(configs[feed], o, s.meta.timestampMs, p, x);
      CustomerAlertedIff(configs[feed], o, s.meta.timestampMs, p, x, customer);
      forall c | c in configs[feed]
        ensures Quiet(before + [x], c.spikeThresholdBps)
                <==> Quiet(before, c.spikeThresholdBps) && !Spikes(p, x, c.spikeThresholdBps)
      {
        QuietSnoc(before, x, c.spikeThresholdBps);
      }
    } else {
      assert before + [] == before;
      if IsUpdate(s) {
        AcceptedIsLow64(s.payload.oracle.answer);
      }
    }
  }

  lemma QuietSnoc(prices: seq<nat>, x: nat, threshold: nat)
    requires prices != [] && prices[|prices| - 1] > 0
    ensures Quiet(prices + [x], threshold) <==> Quiet(prices, threshold) && !Spikes(prices[|prices| - 1], x, threshold)
  {
    hide Spikes;
    var n := |prices| - 1;
    assert forall i :: 0 <= i <= n ==> (prices + [x])[i] == prices[i];
    assert (prices + [x])[n + 1] == x;
  }

  /** However long the silence and whenever it began, compounding bounds the drift both ways. */
  lemma SilentDrift(configs: Configs, trace: seq<Signal>, feed: FeedKey, c: RuleConfig, lo: nat, hi: nat)
    requires feed in configs && c in configs[feed] && c.enabled
    requires lo < hi <= |trace| && UpdateOf(trace[lo], feed)
    requires PositiveBeforeLast(Prices(trace[lo..hi], feed))
    requires Silent(configs, trace, feed, c.customerId, lo, hi)
    ensures var prices, t := Prices(trace[lo..hi], feed), c.spikeThresholdBps;
            var n := |prices| - 1;
            && prices != [] && prices[0] == Signed(trace[lo].payload.oracle.answer)
            && prices[n] * Pow(10000, n) <= prices[0] * Pow(10001 + t, n)
            && (t <= 9999 ==> prices[0] * Pow(9999 - t, n) <= prices[n] * Pow(10000, n))
  {
    SilentIffQuiet(configs, trace, feed, c.customerId, lo, hi);
    MemoryIsLastPrice(configs, trace, feed, lo, hi);
    FirstPrice(trace[lo..hi], feed);
    QuietDrift(Prices(trace[lo..hi], feed), c.spikeThresholdBps);
  }

  lemma {:induction false} FirstPrice(trace: seq<Signal>, feed: FeedKey)
    requires trace != [] && UpdateOf(trace[0], feed)
    ensures Prices(trace, feed) != [] && Prices(trace, feed)[0] == Signed(trace[0].payload.oracle.answer)
  {
    if |trace| > 1 {
      FirstPrice(trace[..|trace| - 1], feed);
    }
  }
}
