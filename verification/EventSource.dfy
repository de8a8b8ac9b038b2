/** The block poller (src/events/EventSource.cpp): a cursor over block numbers that fetches logs
    in batches, halves the batch when the node refuses it, and pushes normalized signals. */
module EventSource {
  import opened Results
  import opened Numbers
  import opened Hex
  import opened Signals
  import opened Normalize

  datatype Config = Config(startBlock: uint64, maxBlockRange: uint64, minBlockRange: uint64, backtestEndBlock: uint64)

  /** The value every EventSource of the program runs with: nothing ever sets another. */
  const DEFAULT_MIN_RANGE: uint64 := 1

  /** One call for the logs of the blocks from..to: the attempt-th of its poll. */
  datatype Request = Request(attempt: nat, from: uint64, to: uint64)

  /** What the node and the clock would answer during one poll: the head, every request for logs,
      the timestamp of the last block. None is a failed call. stale is what an uninitialised hash
      buffer holds. drains(i)(k) is how many signals the consumer takes off the ring before the
      k-th try to push the i-th log; after patience tries in vain it takes at least one. */
  datatype Rpc = Rpc(
    head: Option<uint64>, getLogs: Request -> Option<seq<RawLog>>, timestamp: Option<uint64>,
    wallClockMs: uint64, stale: nat -> Word, drains: nat -> nat -> nat, patience: nat)

  /** Arithmetic in a 64-bit register. */
  function Wrap64(x: int): (r: uint64)
    ensures 0 <= x < TWO_64 ==> r == x
  {
    x % TWO_64
  }

  function Min(a: uint64, b: uint64): uint64 {
    if b < a then b else a
  }

  function Max(a: uint64, b: uint64): uint64 {
    if a < b then b else a
  }

  // ---------------------------------------------------------------- one poll

  datatype State = State(next: uint64, head: uint64, cold: bool)

  datatype Batch = Batch(from: uint64, to: uint64, logs: seq<RawLog>, timestampMs: uint64)

  datatype Fetch = Fetched(range: uint64, logs: seq<RawLog>, attempts: nat) | Refused(attempts: nat)

  function LastBlock(next: uint64, range: uint64): uint64 {
    Wrap64(next + range - 1)
  }

  function Shrunk(range: uint64, minRange: uint64): uint64 {
    Max(range / 2, minRange)
  }

  /** The fetch loop from its k-th attempt on. */
  function FetchFrom(minRange: uint64, next: uint64, range: uint64, rpc: Rpc, k: nat): (f: Fetch)
    ensures f.attempts > k
    decreases range
  {
    match rpc.getLogs(Request(k, next, LastBlock(next, range)))
    case Some(logs) => Fetched(range, logs, k + 1)
    case None =>
      if range <= minRange then Refused(k + 1)
      else FetchFrom(minRange, next, Shrunk(range, minRange), rpc, k + 1)
  }

  function Fetching(cfg: Config, st: State, rpc: Rpc): Fetch {
    FetchFrom(cfg.minBlockRange, st.next, FirstRange(cfg, st), rpc, 0)
  }

  function FirstRange(cfg: Config, st: State): uint64 {
    Max(Min(cfg.maxBlockRange, Wrap64(st.head - st.next + 1)), cfg.minBlockRange)
  }

  /** The signals of the logs up to the first one that does not normalize, and whether all did. */
  function NormalizeAll(logs: seq<RawLog>, chainId: uint64, timestampMs: uint64, rpc: Rpc): (seq<Signal>, bool) {
    if logs == [] then ([], true)
    else
      var n := |logs| - 1;
      var (signals, ok) := NormalizeAll(logs[..n], chainId, timestampMs, rpc);
      if !ok then (signals, false)
      else match Normalized(logs[n], chainId, timestampMs, rpc.stale(n))
           case Success(s) => (signals + [s], true)
           case Failure(_) => (signals, false)
  }

  function BatchTimestamp(rpc: Rpc): uint64 {
    match rpc.timestamp
    case Some(t) => Wrap64(t * 1000)
    case None => rpc.wallClockMs
  }

  function NeedsHead(st: State): bool {
    st.head == 0 || st.next > st.head
  }

  function Refreshed(cfg: Config, st: State, head: uint64): State {
    st.(head := if cfg.backtestEndBlock != 0 then Min(head, cfg.backtestEndBlock) else head)
  }

  datatype Poll = Poll(state: State, pushed: seq<Signal>, batch: Option<Batch>, threw: bool, more: bool)

  function Idle(st: State): Poll {
    Poll(st, [], None, false, false)
  }

  function Threw(st: State, pushed: seq<Signal>): Poll {
    Poll(st, pushed, None, true, false)
  }

  function PollOf(cfg: Config, chainId: uint64, st: State, rpc: Rpc): Poll {
    if NeedsHead(st) && rpc.head.None? then Threw(st, [])
    else
      var seen := if NeedsHead(st) then Refreshed(cfg, st, rpc.head.value) else st;
      if NeedsHead(st) && st.cold then
        Idle(seen.(next := if cfg.backtestEndBlock == 0 then seen.head else seen.next, cold := false))
      else if seen.next > seen.head then Idle(seen)
      else Work(cfg, chainId, seen, rpc)
  }

  function Work(cfg: Config, chainId: uint64, st: State, rpc: Rpc): (p: Poll)
    ensures p.state.cold == st.cold
  {
    match Fetching(cfg, st, rpc)
    case Refused(_) => Threw(st, [])
    case Fetched(range, logs, _) =>
      var to := LastBlock(st.next, range);
      var (signals, ok) := NormalizeAll(logs, chainId, BatchTimestamp(rpc), rpc);
      if !ok then Threw(st, signals)
      else
        var next := Wrap64(to + 1);
        Poll(st.(next := next), signals, Some(Batch(st.next, to, logs, BatchTimestamp(rpc))), false, next <= st.head)
  }

  /** Why the polling loop was left, or that the answers of the node ran out first. */
  datatype Exit = ByItself | Asked | StillRunning

  class EventSource {
    const cfg: Config
    const chainId: uint64
    const capacity: nat
    var nextBlock: uint64
    var coldStart: bool
    var cachedChainHead: uint64
    var ring: seq<Signal>
    var taken: seq<Signal>

    predicate Valid()
      reads this
    {
      capacity > 0 && |ring| <= capacity
    }

    /** Everything ever pushed: what the consumer has taken, then what is still in the ring. */
    function PushedSoFar(): seq<Signal>
      reads this
    {
      taken + ring
    }

    function Abstract(): State
      reads this
    {
      State(nextBlock, cachedChainHead, coldStart)
    }

    constructor (cfg: Config, chainId: uint64, capacity: nat)
      requires capacity > 0
      ensures this.cfg == cfg && this.chainId == chainId && this.capacity == capacity
      ensures Valid() && Abstract() == Initial(cfg) && PushedSoFar() == []
    {
      this.cfg := cfg;
      this.chainId := chainId;
      this.capacity := capacity;
      nextBlock := cfg.startBlock;
      coldStart := cfg.startBlock == 0;
      cachedChainHead := 0;
      ring, taken := [], [];
    }

    /** The other end of the ring: the engine takes up to n signals, oldest first. */
    method ConsumerTakes(n: nat)
      requires Valid()
      modifies this`ring, this`taken
      ensures Valid() && PushedSoFar() == old(PushedSoFar())
      ensures |ring| == if n < |old(ring)| then |old(ring)| - n else 0
    {
      var k := if n < |ring| then n else |ring|;
      taken, ring := taken + ring[..k], ring[k..];
    }

    /** Tries until the ring has room; the signal goes in last and the ring never overflows. */
    method PushBlocking(ev: Signal, drains: nat -> nat, patience: nat)
      requires Valid()
      modifies this`ring, this`taken
      ensures Valid() && ring != [] && PushedSoFar() == old(PushedSoFar()) + [ev]
    {
      var retries := 0;
      ConsumerTakes(drains(0));
      while |ring| == capacity
        invariant Valid() && PushedSoFar() == old(PushedSoFar())
        decreases if retries < patience then patience - retries else 0, |ring|
      {
        retries := retries + 1;
        ConsumerTakes(if retries > patience && drains(retries) == 0 then 1 else drains(retries));
      }
      ring := ring + [ev];
    }

    method FetchShrinking(first: uint64, rpc: Rpc) returns (fetch: Fetch)
      ensures fetch == FetchFrom(cfg.minBlockRange, nextBlock, first, rpc, 0)
    {
      var range: uint64, k: nat := first, 0;
      while true
        invariant FetchFrom(cfg.minBlockRange, nextBlock, first, rpc, 0)
            == FetchFrom(cfg.minBlockRange, nextBlock, range, rpc, k)
        decreases range
      {
        var toBlock := Wrap64(nextBlock + range - 1);
        var logs := rpc.getLogs(Request(k, nextBlock, toBlock));
        if logs.Some? {
          return Fetched(range, logs.value, k + 1);
        }
        if range <= cfg.minBlockRange {
          return Refused(k + 1);
        }
        range := Max(range / 2, cfg.minBlockRange);
        k := k + 1;
      }
    }

    /** Normalizes and pushes log by log; what was pushed before a failure stays pushed. */
    method PushLogs(logs: seq<RawLog>, timestampMs: uint64, rpc: Rpc) returns (ok: bool)
      requires Valid()
      modifies this`ring, this`taken
      ensures Valid()
      ensures PushedSoFar() == old(PushedSoFar()) + NormalizeAll(logs, chainId, timestampMs, rpc).0
      ensures ok == NormalizeAll(logs, chainId, timestampMs, rpc).1
    {
      for i := 0 to |logs|
        invariant NormalizeAll(logs[..i], chainId, timestampMs, rpc).1
        invariant Valid()
        invariant PushedSoFar() == old(PushedSoFar()) + NormalizeAll(logs[..i], chainId, timestampMs, rpc).0
      {
        assert logs[..i + 1][..i] == logs[..i];
        var ev := NormalizeLog(logs[i], chainId, timestampMs, rpc.stale(i));
        if ev.Failure? {
          StopsAtFailure(logs, i + 1, chainId, timestampMs, rpc);
          return false;
        }
        PushBlocking(ev.value, rpc.drains(i), rpc.patience);
      }
      assert logs[..|logs|] == logs;
      return true;
    }

    /** One poll; Some(more) when it returns, None when it throws. */
    method PollOnce(rpc: Rpc) returns (more: Option<bool>)
      requires Valid()
      modifies this
      ensures Valid()
      ensures var p := PollOf(cfg, chainId, old(Abstract()), rpc);
              && Abstract() == p.state
              && PushedSoFar() == old(PushedSoFar()) + p.pushed
              && more == if p.threw then None else Some(p.more)
    {
      hide Work;
      if cachedChainHead == 0 || nextBlock > cachedChainHead {
        if rpc.head.None? {
          return None;
        }
        cachedChainHead := rpc.head.value;
        if cfg.backtestEndBlock != 0 {
          cachedChainHead := Min(cachedChainHead, cfg.backtestEndBlock);
        }
        if coldStart {
          if cfg.backtestEndBlock == 0 {
            nextBlock := cachedChainHead;
          }
          coldStart := false;
          return Some(false);
        }
      }
      if nextBlock > cachedChainHead {
        return Some(false);
      }
      more := WorkOnce(rpc);
    }

    /** The part of a poll that has blocks to fetch. */
    method WorkOnce(rpc: Rpc) returns (more: Option<bool>)
      requires Valid()
      modifies this
      ensures Valid()
      ensures var p := Work(cfg, chainId, old(Abstract()), rpc);
              && Abstract() == p.state
              && PushedSoFar() == old(PushedSoFar()) + p.pushed
              && more == if p.threw then None else Some(p.more)
    {
      hide Normalized, NormalizeAll, FetchFrom;
      var distance := Wrap64(cachedChainHead - nextBlock + 1);
      var range := Max(Min(cfg.maxBlockRange, distance), cfg.minBlockRange);
      var fetch := FetchShrinking(range, rpc);
      if fetch.Refused? {
        return None;
      }
      var toBlock: int := Wrap64(nextBlock + fetch.range - 1);
      var ok := PushLogs(fetch.logs, BatchTimestamp(rpc), rpc);
      if !ok {
        return None;
      }
      nextBlock := Wrap64(toBlock + 1);
      return Some(nextBlock <= cachedChainHead);
    }

    /** The polling loop over the answers of the node. asked(n) is what the loop reads off its
        flag and its stop token before the n-th poll; polls counts the polls made. */
    method Run(answers: seq<Rpc>, asked: nat -> bool) returns (exit: Exit, polls: nat)
      requires Valid() && Abstract() == Initial(cfg) && PushedSoFar() == []
      modifies this
      ensures Valid() && polls <= |answers|
      ensures Abstract() == After(cfg, chainId, answers[..polls])
      ensures PushedSoFar() == Pushed(cfg, chainId, answers[..polls])
      ensures forall i :: 0 <= i < polls ==> !asked(i) && !PastEnd(cfg, After(cfg, chainId, answers[..i]))
      ensures exit == Asked <==> asked(polls)
      ensures exit == ByItself <==> !asked(polls) && PastEnd(cfg, Abstract())
      ensures exit == StillRunning ==> polls == |answers|
    {
      hide PollOf;
      polls := 0;
      while !asked(polls)
        invariant Valid() && polls <= |answers|
        invariant Abstract() == After(cfg, chainId, answers[..polls])
        invariant PushedSoFar() == Pushed(cfg, chainId, answers[..polls])
        invariant forall i :: 0 <= i < polls ==> !asked(i) && !PastEnd(cfg, After(cfg, chainId, answers[..i]))
        decreases |answers| - polls
      {
        if cfg.backtestEndBlock != 0 && nextBlock > cfg.backtestEndBlock {
          return ByItself, polls;
        }
        if polls == |answers| {
          return StillRunning, polls;
        }
        assert answers[..polls + 1][..polls] == answers[..polls];
        var _ := PollOnce(answers[polls]);
        polls := polls + 1;
      }
      return Asked, polls;
    }
  }

  lemma {:induction false} StopsAtFailure(logs: seq<RawLog>, k: nat, chainId: uint64, timestampMs: uint64, rpc: Rpc)
    requires k <= |logs| && !NormalizeAll(logs[..k], chainId, timestampMs, rpc).1
    ensures NormalizeAll(logs, chainId, timestampMs, rpc) == NormalizeAll(logs[..k], chainId, timestampMs, rpc)
  {
    if k == |logs| {
      assert logs[..k] == logs;
    } else {
      var q := logs[..|logs| - 1];
      assert q[..k] == logs[..k];
      StopsAtFailure(q, k, chainId, timestampMs, rpc);
    }
  }

  // ---------------------------------------------------------------- whole runs

  function Initial(cfg: Config): State {
    State(cfg.startBlock, 0, cfg.startBlock == 0)
  }

  function After(cfg: Config, chainId: uint64, answers: seq<Rpc>): State {
    if answers == [] then Initial(cfg)
    else PollOf(cfg, chainId, After(cfg, chainId, answers[..|answers| - 1]), answers[|answers| - 1]).state
  }

  function Pushed(cfg: Config, chainId: uint64, answers: seq<Rpc>): seq<Signal> {
    if answers == [] then []
    else
      var n := |answers| - 1;
      Pushed(cfg, chainId, answers[..n]) + PollOf(cfg, chainId, After(cfg, chainId, answers[..n]), answers[n]).pushed
  }

  /** The batches the cursor was moved past, in order. */
  function Batches(cfg: Config, chainId: uint64, answers: seq<Rpc>): seq<Batch> {
    if answers == [] then []
    else
      var n := |answers| - 1;
      var p := PollOf(cfg, chainId, After(cfg, chainId, answers[..n]), answers[n]);
      Batches(cfg, chainId, answers[..n]) + if p.batch.Some? then [p.batch.value] else []
  }

  /** What the batches deliver when each log is pushed once. */
  function Delivered(cfg: Config, chainId: uint64, answers: seq<Rpc>): seq<Signal> {
    if answers == [] then []
    else
      var n := |answers| - 1;
      var p := PollOf(cfg, chainId, After(cfg, chainId, answers[..n]), answers[n]);
      Delivered(cfg, chainId, answers[..n]) + if p.batch.Some? then p.pushed else []
  }

  predicate PastEnd(cfg: Config, st: State) {
    cfg.backtestEndBlock != 0 && st.next > cfg.backtestEndBlock
  }

  /** Block numbers leave room for a successor. */
  ghost predicate Bounded(cfg: Config, answers: seq<Rpc>) {
    && cfg.startBlock < TWO_64 - 1 && cfg.backtestEndBlock < TWO_64 - 1
    && forall i :: 0 <= i < |answers| && answers[i].head.Some? ==> answers[i].head.value < TWO_64 - 1
  }

  // ---------------------------------------------------------------- the fetch loop

  /** The ranges only shrink and never drop below the minimum, and the logs are the answer to the
      last request. */
  lemma {:induction false} FetchLoop(minRange: uint64, next: uint64, range: uint64, rpc: Rpc, k: nat)
    requires minRange <= range
    ensures var f := FetchFrom(minRange, next, range, rpc, k);
            && f.attempts > k
            && (f.Fetched? ==>
                 && minRange <= f.range <= range
                 && rpc.getLogs(Request(f.attempts - 1, next, LastBlock(next, f.range))) == Some(f.logs))
            && (f.Refused? ==> rpc.getLogs(Request(f.attempts - 1, next, LastBlock(next, minRange))).None?)
    decreases range
  {
    hide LastBlock;
    if rpc.getLogs(Request(k, next, LastBlock(next, range))).None? && range > minRange {
      FetchLoop(minRange, next, Shrunk(range, minRange), rpc, k + 1);
    }
  }

  /** Every failed attempt halves the range: n attempts need a first range of at least 2^(n-1). */
  lemma {:induction false} AttemptsHalve(minRange: uint64, next: uint64, range: uint64, rpc: Rpc, k: nat)
    requires 1 <= minRange <= range
    ensures Pow(2, FetchFrom(minRange, next, range, rpc, k).attempts - 1 - k) <= range
    decreases range
  {
    hide LastBlock;
    if rpc.getLogs(Request(k, next, LastBlock(next, range))).None? && range > minRange {
      AttemptsHalve(minRange, next, Shrunk(range, minRange), rpc, k + 1);
      if range / 2 < minRange {
        MinReached(minRange, next, rpc, k + 1);
      }
    }
  }

  lemma MinReached(minRange: uint64, next: uint64, rpc: Rpc, k: nat)
    ensures FetchFrom(minRange, next, minRange, rpc, k).attempts == k + 1
  {
  }

  /** Two nodes that answer alike every request from block next on that ends by the given last
      block. */
  ghost predicate AgreeInside(a: Rpc, b: Rpc, next: uint64, last: int) {
    && b == a.(getLogs := b.getLogs)
    && forall r: Request :: r.from == next <= r.to <= last ==> a.getLogs(r) == b.getLogs(r)
  }

  lemma {:induction false} FetchAgrees(minRange: uint64, next: uint64, range: uint64, a: Rpc, b: Rpc, last: int, k: nat)
    requires 1 <= minRange <= range && next + range - 1 <= last < TWO_64 && AgreeInside(a, b, next, last)
    ensures FetchFrom(minRange, next, range, a, k) == FetchFrom(minRange, next, range, b, k)
    decreases range
  {
    assert next <= LastBlock(next, range) <= last;
    if a.getLogs(Request(k, next, LastBlock(next, range))).None? && range > minRange {
      FetchAgrees(minRange, next, Shrunk(range, minRange), a, b, last, k + 1);
    }
  }

  /** The last block a poll may ask for: the cached head, or the end of a full batch. */
  function Reach(cfg: Config, st: State): int {
    var full := st.next + Max(cfg.maxBlockRange, 1) - 1;
    if st.head < full then st.head else full
  }

  lemma FirstRangeInside(cfg: Config, st: State)
    requires cfg.minBlockRange == DEFAULT_MIN_RANGE && st.next <= st.head < TWO_64 - 1
    ensures 1 <= FirstRange(cfg, st) && st.next + FirstRange(cfg, st) - 1 <= Reach(cfg, st) <= st.head
  {
  }

  /** Every attempt of a poll asks for blocks from the unmoved cursor up to no further than the
      cached head, and no more than the configured range: what the node would say to any other
      request makes no difference. */
  lemma RequestsStayInside(cfg: Config, chainId: uint64, st: State, a: Rpc, b: Rpc)
    requires cfg.minBlockRange == DEFAULT_MIN_RANGE && st.next <= st.head < TWO_64 - 1
    requires AgreeInside(a, b, st.next, Reach(cfg, st))
    ensures Work(cfg, chainId, st, a) == Work(cfg, chainId, st, b)
  {
    hide NormalizeAll, Normalized, FetchFrom, FirstRange, Reach, Wrap64;
    FirstRangeInside(cfg, st);
    FetchAgrees(cfg.minBlockRange, st.next, FirstRange(cfg, st), a, b, Reach(cfg, st), 0);
    assert a.stale == b.stale && BatchTimestamp(a) == BatchTimestamp(b);
    hide AgreeInside;
    var f := Fetching(cfg, st, a);
    assert Fetching(cfg, st, b) == f;
    if f.Fetched? {
      NormalizeAgrees(f.logs, chainId, BatchTimestamp(a), a, b);
    }
  }

  lemma {:induction false} NormalizeAgrees(logs: seq<RawLog>, chainId: uint64, timestampMs: uint64, a: Rpc, b: Rpc)
    requires a.stale == b.stale
    ensures NormalizeAll(logs, chainId, timestampMs, a) == NormalizeAll(logs, chainId, timestampMs, b)
  {
    if logs != [] {
      NormalizeAgrees(logs[..|logs| - 1], chainId, timestampMs, a, b);
    }
  }

  /** The attempt loop of a poll makes at most floor(log2(first range)) + 1 calls: with a calls,
      2^(a-1) does not exceed the first range. */
  lemma AttemptBound(cfg: Config, st: State, rpc: Rpc)
    requires cfg.minBlockRange >= 1
    ensures Pow(2, Fetching(cfg, st, rpc).attempts - 1) <= FirstRange(cfg, st)
  {
    AttemptsHalve(cfg.minBlockRange, st.next, FirstRange(cfg, st), rpc, 0);
  }

  // ---------------------------------------------------------------- coverage

  ghost predicate Contiguous(b: seq<Batch>, start: nat, next: nat) {
    && (forall i :: 0 <= i < |b| ==> b[i].from <= b[i].to)
    && (forall i :: 0 <= i < |b| - 1 ==> b[i + 1].from == b[i].to + 1)
    && (if b == [] then start == next else b[0].from == start && b[|b| - 1].to + 1 == next)
  }

  /** The first block a run is responsible for: the configured one, or in live mode without a
      checkpoint the head at the first successful look. */
  function Origin(cfg: Config, chainId: uint64, answers: seq<Rpc>): uint64 {
    if answers == [] then cfg.startBlock
    else
      var q := answers[..|answers| - 1];
      if After(cfg, chainId, q).cold then After(cfg, chainId, answers).next else Origin(cfg, chainId, q)
  }

  /** A configured start is where the run begins. */
  lemma {:induction false} ConfiguredOrigin(cfg: Config, chainId: uint64, answers: seq<Rpc>)
    requires cfg.startBlock != 0
    ensures Origin(cfg, chainId, answers) == cfg.startBlock && !After(cfg, chainId, answers).cold
  {
    hide Work;
    if answers != [] {
      ConfiguredOrigin(cfg, chainId, answers[..|answers| - 1]);
    }
  }

  /** Live without a start: the run begins at the head the node first reports. */
  lemma {:induction false} LiveColdStart(cfg: Config, chainId: uint64, answers: seq<Rpc>, i: nat)
    requires cfg.startBlock == 0 && cfg.backtestEndBlock == 0 && i < |answers|
    requires answers[i].head.Some? && forall j :: 0 <= j < i ==> answers[j].head.None?
    ensures Origin(cfg, chainId, answers) == answers[i].head.value
    ensures !After(cfg, chainId, answers).cold
  {
    hide Work;
    var n := |answers| - 1;
    if i < n {
      LiveColdStart(cfg, chainId, answers[..n], i);
    } else {
      NoHeadYet(cfg, chainId, answers[..n]);
    }
  }

  lemma {:induction false} NoHeadYet(cfg: Config, chainId: uint64, answers: seq<Rpc>)
    requires cfg.startBlock == 0 && forall j :: 0 <= j < |answers| ==> answers[j].head.None?
    ensures After(cfg, chainId, answers) == Initial(cfg)
  {
    if answers != [] {
      NoHeadYet(cfg, chainId, answers[..|answers| - 1]);
    }
  }

  /** With the default minimum a poll that works fetches from the cursor, no further than the
      head it knows, and no more than the configured range. Nothing wraps around. */
  lemma WorkStaysInside(cfg: Config, chainId: uint64, st: State, rpc: Rpc)
    requires cfg.minBlockRange == DEFAULT_MIN_RANGE && st.next <= st.head < TWO_64 - 1
    ensures 1 <= st.head - st.next + 1 < TWO_64
    ensures var p := Work(cfg, chainId, st, rpc);
            if p.batch.Some? then
              && p.batch.value.from == st.next <= p.batch.value.to <= st.head
              && p.batch.value.to - p.batch.value.from + 1 <= Max(cfg.maxBlockRange, 1)
              && p.state == st.(next := p.batch.value.to + 1)
              && p.more == (p.state.next <= st.head)
            else p.state == st && p.threw
  {
    hide Wrap64, FetchFrom, NormalizeAll, Normalized;
    FetchLoop(cfg.minBlockRange, st.next, FirstRange(cfg, st), rpc, 0);
  }

  ghost predicate Sound(cfg: Config, st: State) {
    && st.next < TWO_64 && st.head < TWO_64 - 1
    && (cfg.backtestEndBlock != 0
       ==> st.head <= cfg.backtestEndBlock && (st.next <= cfg.backtestEndBlock + 1 || st.next == cfg.startBlock))
    && (st.cold ==> st == Initial(cfg))
  }

  lemma PollKeepsSound(cfg: Config, chainId: uint64, st: State, rpc: Rpc)
    requires cfg.minBlockRange == DEFAULT_MIN_RANGE && Sound(cfg, st)
    requires rpc.head.Some? ==> rpc.head.value < TWO_64 - 1
    ensures var p := PollOf(cfg, chainId, st, rpc);
            && Sound(cfg, p.state)
            && (p.batch.Some? ==>
                 && p.batch.value.from == st.next <= p.batch.value.to <= p.state.head
                 && p.batch.value.to - p.batch.value.from + 1 <= Max(cfg.maxBlockRange, 1)
                 && p.state.next == p.batch.value.to + 1)
            && (p.batch.None? && !st.cold ==> p.state.next == st.next)
            && (st.cold || p.state.cold ==> p.batch.None? && (p.state.cold ==> st.cold))
            && (cfg.backtestEndBlock != 0 && p.batch.None? ==> p.state.next == st.next)
  {
    var seen := if NeedsHead(st) && rpc.head.Some? then Refreshed(cfg, st, rpc.head.value) else st;
    if seen.next <= seen.head {
      WorkStaysInside(cfg, chainId, seen, rpc);
    }
  }

  lemma {:induction false} AlwaysSound(cfg: Config, chainId: uint64, answers: seq<Rpc>)
    requires cfg.minBlockRange == DEFAULT_MIN_RANGE && Bounded(cfg, answers)
    ensures Sound(cfg, After(cfg, chainId, answers))
  {
    if answers != [] {
      var n := |answers| - 1;
      AlwaysSound(cfg, chainId, answers[..n]);
      PollKeepsSound(cfg, chainId, After(cfg, chainId, answers[..n]), answers[n]);
    }
  }

  /** The facts about the last poll of a run. */
  lemma LastPoll(cfg: Config, chainId: uint64, answers: seq<Rpc>)
    requires cfg.minBlockRange == DEFAULT_MIN_RANGE && Bounded(cfg, answers) && answers != []
    ensures var n := |answers| - 1;
            var st := After(cfg, chainId, answers[..n]);
            var p := PollOf(cfg, chainId, st, answers[n]);
            && Bounded(cfg, answers[..n])
            && (p.batch.Some? ==>
                 && p.batch.value.from == st.next <= p.batch.value.to && p.state.next == p.batch.value.to + 1
                 && p.batch.value.to - p.batch.value.from + 1 <= Max(cfg.maxBlockRange, 1))
            && (p.batch.None? && !st.cold ==> p.state.next == st.next)
            && (st.cold || p.state.cold ==> p.batch.None? && (p.state.cold ==> st.cold))
  {
    hide PollOf, Sound;
    var n := |answers| - 1;
    AlwaysSound(cfg, chainId, answers[..n]);
    PollKeepsSound(cfg, chainId, After(cfg, chainId, answers[..n]), answers[n]);
  }

  lemma ContiguousSnoc(b: seq<Batch>, start: nat, next: nat, x: Batch)
    requires Contiguous(b, start, next) && x.from == next <= x.to
    ensures Contiguous(b + [x], start, x.to + 1)
  {
  }

  /** Whatever the node answers, the committed batches follow one another without gap or overlap
      from the first cursor to the present one. */
  lemma {:induction false} BatchesContiguous(cfg: Config, chainId: uint64, answers: seq<Rpc>)
    requires cfg.minBlockRange == DEFAULT_MIN_RANGE && Bounded(cfg, answers)
    ensures Contiguous(Batches(cfg, chainId, answers), Origin(cfg, chainId, answers), After(cfg, chainId, answers).next)
    ensures After(cfg, chainId, answers).cold ==> Batches(cfg, chainId, answers) == []
  {
    if answers != [] {
      hide PollOf, Contiguous, Bounded;
      var n := |answers| - 1;
      var q := answers[..n];
      LastPoll(cfg, chainId, answers);
      BatchesContiguous(cfg, chainId, q);
      var st, p := After(cfg, chainId, q), PollOf(cfg, chainId, After(cfg, chainId, q), answers[n]);
      if p.batch.Some? {
        ContiguousSnoc(Batches(cfg, chainId, q), Origin(cfg, chainId, q), st.next, p.batch.value);
      } else {
        assert Batches(cfg, chainId, answers) == Batches(cfg, chainId, q);
        if st.cold {
          NothingYet(p.state.next);
        }
      }
    }
  }

  lemma NothingYet(next: nat)
    ensures Contiguous([], next, next)
  {
  }

  /** No batch is longer than the configured range. */
  lemma {:induction false} BatchesWithinRange(cfg: Config, chainId: uint64, answers: seq<Rpc>)
    requires cfg.minBlockRange == DEFAULT_MIN_RANGE && Bounded(cfg, answers)
    ensures forall b :: b in Batches(cfg, chainId, answers) ==> b.to - b.from + 1 <= Max(cfg.maxBlockRange, 1)
  {
    if answers != [] {
      hide PollOf, Bounded;
      LastPoll(cfg, chainId, answers);
      BatchesWithinRange(cfg, chainId, answers[..|answers| - 1]);
    }
  }

  lemma {:induction false} BacktestOrigin(cfg: Config, chainId: uint64, answers: seq<Rpc>)
    requires cfg.minBlockRange == DEFAULT_MIN_RANGE && Bounded(cfg, answers) && cfg.backtestEndBlock != 0
    ensures Origin(cfg, chainId, answers) == cfg.startBlock
  {
    if answers != [] {
      var n := |answers| - 1;
      var q := answers[..n];
      BacktestOrigin(cfg, chainId, q);
      AlwaysSound(cfg, chainId, q);
      PollKeepsSound(cfg, chainId, After(cfg, chainId, q), answers[n]);
    }
  }

  predicate Covered(b: seq<Batch>, block: nat) {
    exists i :: 0 <= i < |b| && b[i].from <= block <= b[i].to
  }

  /** A backtest that leaves by itself has covered exactly the blocks from its start to its end,
      each once: a block belongs to a batch iff it lies in that interval, and never to two. */
  lemma BacktestCovers(cfg: Config, chainId: uint64, answers: seq<Rpc>, block: nat)
    requires cfg.minBlockRange == DEFAULT_MIN_RANGE && Bounded(cfg, answers)
    requires PastEnd(cfg, After(cfg, chainId, answers))
    ensures var b := Batches(cfg, chainId, answers);
            && (cfg.startBlock <= block <= cfg.backtestEndBlock <==> Covered(b, block))
            && (forall i, j :: 0 <= i < j < |b| ==> b[i].to < b[j].from)
  {
    BatchesContiguous(cfg, chainId, answers);
    BacktestOrigin(cfg, chainId, answers);
    AlwaysSound(cfg, chainId, answers);
    var b, next := Batches(cfg, chainId, answers), After(cfg, chainId, answers).next;
    Covering(b, cfg.startBlock, next, block);
    if b == [] {
      assert next == cfg.startBlock;
    }
  }

  lemma {:induction false} Covering(b: seq<Batch>, start: nat, next: nat, block: nat)
    requires Contiguous(b, start, next)
    ensures start <= next
    ensures start <= block < next <==> Covered(b, block)
    ensures forall i, j :: 0 <= i < j < |b| ==> b[i].to < b[j].from
    ensures next - start >= |b|
  {
    if b != [] {
      var n := |b| - 1;
      Covering(b[..n], start, b[n].from, block);
      assert forall i :: 0 <= i < n ==> b[..n][i] == b[i];
      if b[n].from <= block <= b[n].to {
        assert 0 <= n < |b|;
      }
    }
  }

  // ---------------------------------------------------------------- the logs of a chain

  /** The logs of the blocks from..next, without next, in block order. */
  function ChainLogs(chain: nat -> seq<RawLog>, from: nat, next: nat): seq<RawLog> {
    if next <= from then [] else ChainLogs(chain, from, next - 1) + chain(next - 1)
  }

  /** Whenever the node serves a request, it does so from the one chain. */
  ghost predicate AnswersFrom(chain: nat -> seq<RawLog>, rpc: Rpc) {
    forall r: Request :: rpc.getLogs(r).Some? ==> rpc.getLogs(r).value == ChainLogs(chain, r.from, r.to + 1)
  }

  function LogsOf(batches: seq<Batch>): seq<RawLog> {
    if batches == [] then []
    else
      var n := |batches| - 1;
      LogsOf(batches[..n]) + batches[n].logs
  }

  lemma LogsOfSnoc(batches: seq<Batch>, b: Batch)
    ensures LogsOf(batches + [b]) == LogsOf(batches) + b.logs
  {
    assert (batches + [b])[..|batches|] == batches;
  }

  lemma {:induction false} ChainLogsJoin(chain: nat -> seq<RawLog>, from: nat, mid: nat, next: nat)
    requires from <= mid <= next
    ensures ChainLogs(chain, from, mid) + ChainLogs(chain, mid, next) == ChainLogs(chain, from, next)
    decreases next
  {
    if mid < next {
      ChainLogsJoin(chain, from, mid, next - 1);
    } else {
      assert ChainLogs(chain, from, mid) + [] == ChainLogs(chain, from, mid);
    }
  }

  lemma CommittedFromChain(cfg: Config, chainId: uint64, st: State, rpc: Rpc, chain: nat -> seq<RawLog>)
    requires AnswersFrom(chain, rpc)
    ensures var p := PollOf(cfg, chainId, st, rpc);
            p.batch.Some? ==> p.batch.value.logs == ChainLogs(chain, p.batch.value.from, p.batch.value.to + 1)
  {
    hide PollOf, Normalized, ChainLogs;
    PushedBeforeCommit(cfg, chainId, st, rpc);
  }

  /** Whatever failed and however the ranges were halved, the logs of the committed batches are
      those of the chain from the first cursor to the present one, in block order. */
  lemma {:induction false} BatchesReadChain(cfg: Config, chainId: uint64, answers: seq<Rpc>, chain: nat -> seq<RawLog>)
    requires cfg.minBlockRange == DEFAULT_MIN_RANGE && Bounded(cfg, answers)
    requires forall i :: 0 <= i < |answers| ==> AnswersFrom(chain, answers[i])
    ensures LogsOf(Batches(cfg, chainId, answers))
            == ChainLogs(chain, Origin(cfg, chainId, answers), After(cfg, chainId, answers).next)
  {
    if answers != [] {
      hide PollOf, Bounded, AnswersFrom, ChainLogs, LogsOf;
      var n := |answers| - 1;
      var q := answers[..n];
      LastPoll(cfg, chainId, answers);
      BatchesReadChain(cfg, chainId, q, chain);
      var st, p := After(cfg, chainId, q), PollOf(cfg, chainId, After(cfg, chainId, q), answers[n]);
      if p.batch.Some? {
        var b := p.batch.value;
        CommittedFromChain(cfg, chainId, st, answers[n], chain);
        LogsOfSnoc(Batches(cfg, chainId, q), b);
        CursorPastOrigin(cfg, chainId, q);
        ChainLogsJoin(chain, Origin(cfg, chainId, q), b.from, b.to + 1);
      } else {
        assert Batches(cfg, chainId, answers) == Batches(cfg, chainId, q);
        if st.cold {
          BatchesContiguous(cfg, chainId, q);
          NoLogs(chain, p.state.next);
        }
      }
    } else {
      NoLogs(chain, cfg.startBlock);
    }
  }

  lemma NoLogs(chain: nat -> seq<RawLog>, next: nat)
    ensures ChainLogs(chain, next, next) == [] == LogsOf([])
  {
  }

  lemma CursorPastOrigin(cfg: Config, chainId: uint64, answers: seq<Rpc>)
    requires cfg.minBlockRange == DEFAULT_MIN_RANGE && Bounded(cfg, answers)
    ensures Origin(cfg, chainId, answers) <= After(cfg, chainId, answers).next
  {
    hide PollOf, Bounded;
    BatchesContiguous(cfg, chainId, answers);
    Covering(Batches(cfg, chainId, answers), Origin(cfg, chainId, answers), After(cfg, chainId, answers).next, 0);
  }

  /** A backtest that leaves by itself has read the chain's logs from its start block to its end
      block, in block order, once each. */
  lemma BacktestReadsChain(cfg: Config, chainId: uint64, answers: seq<Rpc>, chain: nat -> seq<RawLog>)
    requires cfg.minBlockRange == DEFAULT_MIN_RANGE && Bounded(cfg, answers)
    requires PastEnd(cfg, After(cfg, chainId, answers))
    requires forall i :: 0 <= i < |answers| ==> AnswersFrom(chain, answers[i])
    ensures LogsOf(Batches(cfg, chainId, answers)) == ChainLogs(chain, cfg.startBlock, cfg.backtestEndBlock + 1)
  {
    hide PollOf, AnswersFrom;
    BatchesReadChain(cfg, chainId, answers, chain);
    BacktestOrigin(cfg, chainId, answers);
    AlwaysSound(cfg, chainId, answers);
  }

  // ---------------------------------------------------------------- a larger minimum range

  /** Staying below the head is a matter of the minimum range alone: it holds for every state and
      every node exactly when that range is at most one block. */
  ghost predicate NeverOvershoots(minRange: uint64) {
    forall maxRange: uint64, end: uint64, next: uint64, head: uint64, rpc ::
      next <= head < TWO_64 - 1 ==>
        var cfg := Config(0, maxRange, minRange, end);
        var f := Fetching(cfg, State(next, head, false), rpc);
        f.Fetched? ==> next + f.range - 1 <= head
  }

  lemma OvershootIff(minRange: uint64)
    ensures NeverOvershoots(minRange) <==> minRange <= 1
  {
    if minRange <= 1 {
      forall maxRange: uint64, end: uint64, next: uint64, head: uint64, rpc | next <= head < TWO_64 - 1
        ensures var f := Fetching(Config(0, maxRange, minRange, end), State(next, head, false), rpc);
                f.Fetched? ==> next + f.range - 1 <= head
      {
        FetchLoop(minRange, next, FirstRange(Config(0, maxRange, minRange, end), State(next, head, false)), rpc, 0);
      }
    } else {
      var rpc := Rpc(None, _ => Some([]), None, 0, _ => Zeros(32), _ => _ => 0, 0);
      var cfg := Config(0, 1, minRange, 0);
      var f := Fetching(cfg, State(5, 5, false), rpc);
      assert FirstRange(cfg, State(5, 5, false)) == minRange;
      assert f.Fetched? && f.range == minRange;
    }
  }

  // ---------------------------------------------------------------- each poll in plain terms

  /** What a poll does before it comes to fetching, and what it tells the loop. */
  lemma PollBranches(cfg: Config, chainId: uint64, st: State, rpc: Rpc)
    ensures var p := PollOf(cfg, chainId, st, rpc);
            var stale := st.head == 0 || st.next > st.head;
            if stale && rpc.head.None? then
              p.threw && p.state == st && p.pushed == [] && p.batch.None?
            else
              var end := cfg.backtestEndBlock;
              var head := if !stale then st.head
                          else if end != 0 && end < rpc.head.value then end
                          else rpc.head.value;
              && p.state.head == head
              && (p.more <==> p.batch.Some? && p.state.next <= head)
              && (if stale && st.cold then
                    !p.threw && p.pushed == [] && p.batch.None?
                    && p.state == State(if cfg.backtestEndBlock == 0 then head else st.next, head, false)
                  else
                    && p.state.cold == st.cold
                    && (st.next > head ==> !p.threw && p.pushed == [] && p.batch.None? && p.state.next == st.next)
                    && (st.next <= head ==> (p.threw <==> p.batch.None?)))
  {
    hide FetchFrom, NormalizeAll, FirstRange;
  }

  /** How many blocks the k-th request of a poll asks for: what is left, capped, halved k times. */
  function AskedRange(cfg: Config, st: State, k: nat): nat
    requires st.next <= st.head
  {
    var left := st.head - st.next + 1;
    var first := if cfg.maxBlockRange < left then cfg.maxBlockRange else left;
    if first / Pow(2, k) > 0 then first / Pow(2, k) else 1
  }

  function RequestOf(cfg: Config, st: State, k: nat): Request
    requires st.next <= st.head < TWO_64 - 1
  {
    AskedWithin(cfg, st, k);
    Request(k, st.next, st.next + AskedRange(cfg, st, k) - 1)
  }

  lemma QuotientAtMost(n: nat, d: nat)
    requires d > 0
    ensures n / d <= n
  {
    DivIdentity(n, d);
    MulMonotone(1, d, n / d);
  }

  lemma AskedWithin(cfg: Config, st: State, k: nat)
    requires st.next <= st.head
    ensures 1 <= AskedRange(cfg, st, k) && st.next + AskedRange(cfg, st, k) - 1 <= st.head
  {
    var left := st.head - st.next + 1;
    var first := if cfg.maxBlockRange < left then cfg.maxBlockRange else left;
    QuotientAtMost(first, Pow(2, k));
  }

  lemma HalvedAgain(n: nat, p: nat)
    requires p > 0
    ensures n / (2 * p) == (n / p) / 2
  {
    var q, r := n / p, n % p;
    DivIdentity(n, p);
    var h, l := q / 2, q % 2;
    assert n == h * (2 * p) + (l * p + r) by {
      MulAssociates(h, 2, p);
      assert q == h * 2 + l;
    }
    MulMonotone(l, 1, p);
    DivMod(h, l * p + r, 2 * p);
  }

  lemma AskedHalves(cfg: Config, st: State, k: nat)
    requires st.next <= st.head
    ensures AskedRange(cfg, st, k) > 1 ==> AskedRange(cfg, st, k + 1) == AskedRange(cfg, st, k) / 2
  {
    var left := st.head - st.next + 1;
    var first := if cfg.maxBlockRange < left then cfg.maxBlockRange else left;
    HalvedAgain(first, Pow(2, k));
  }

  /** The fetch loop is at its k-th request: it goes on to the first that is served, or gives up
      after one for a single block. */
  lemma {:induction false} FirstServed(cfg: Config, st: State, rpc: Rpc, k: nat)
    requires cfg.minBlockRange == DEFAULT_MIN_RANGE && st.next <= st.head < TWO_64 - 1
    ensures var f := FetchFrom(1, st.next, AskedRange(cfg, st, k), rpc, k);
            var last := f.attempts - 1;
            && (forall j :: k <= j < last ==> rpc.getLogs(RequestOf(cfg, st, j)).None?)
            && (if f.Fetched? then
                  f.range == AskedRange(cfg, st, last) && rpc.getLogs(RequestOf(cfg, st, last)) == Some(f.logs)
                else AskedRange(cfg, st, last) == 1 && rpc.getLogs(RequestOf(cfg, st, last)).None?)
    decreases AskedRange(cfg, st, k)
  {
    hide AskedRange;
    AskedWithin(cfg, st, k);
    var range := AskedRange(cfg, st, k);
    if rpc.getLogs(RequestOf(cfg, st, k)).None? && range > 1 {
      AskedHalves(cfg, st, k);
      FirstServed(cfg, st, rpc, k + 1);
    }
  }

  /** The batch a poll commits is the answer to its first request that is served: the k-th, for
      the capped rest of the way to the head halved k times. */
  lemma BatchIsFirstServed(cfg: Config, chainId: uint64, st: State, rpc: Rpc)
    requires cfg.minBlockRange == DEFAULT_MIN_RANGE && PollOf(cfg, chainId, st, rpc).state.head < TWO_64 - 1
    ensures var p := PollOf(cfg, chainId, st, rpc);
            p.batch.Some? ==>
              var seen := st.(head := p.state.head);
              && st.next <= seen.head && p.batch.value.from == st.next
              && exists k: nat :: IsFirstServed(cfg, seen, rpc, k, p.batch.value)
  {
    hide NormalizeAll, Normalized, FetchFrom, FirstRange, IsFirstServed;
    var p := PollOf(cfg, chainId, st, rpc);
    var seen := if NeedsHead(st) && rpc.head.Some? then Refreshed(cfg, st, rpc.head.value) else st;
    if p.batch.Some? {
      assert p.state.head == seen.head;
      FetchedFirstServed(cfg, seen, rpc, BatchTimestamp(rpc));
    }
  }

  /** The k-th request is the first that is served, and the batch is its answer. */
  ghost predicate IsFirstServed(cfg: Config, st: State, rpc: Rpc, k: nat, b: Batch)
    requires st.next <= st.head < TWO_64 - 1
  {
    && (forall j :: 0 <= j < k ==> rpc.getLogs(RequestOf(cfg, st, j)).None?)
    && rpc.getLogs(RequestOf(cfg, st, k)) == Some(b.logs) && b.to == RequestOf(cfg, st, k).to
  }

  lemma FetchedFirstServed(cfg: Config, st: State, rpc: Rpc, timestampMs: uint64)
    requires cfg.minBlockRange == DEFAULT_MIN_RANGE && st.next <= st.head < TWO_64 - 1
    ensures var f := Fetching(cfg, st, rpc);
            f.Fetched? ==>
              var b := Batch(st.next, LastBlock(st.next, f.range), f.logs, timestampMs);
              exists k: nat :: IsFirstServed(cfg, st, rpc, k, b)
  {
    hide FetchFrom;
    FirstServed(cfg, st, rpc, 0);
    FirstAsked(cfg, st);
    var f := Fetching(cfg, st, rpc);
    if f.Fetched? {
      var k: nat := f.attempts - 1;
      AskedWithin(cfg, st, k);
      assert IsFirstServed(cfg, st, rpc, k, Batch(st.next, LastBlock(st.next, f.range), f.logs, timestampMs));
    }
  }

  lemma FirstAsked(cfg: Config, st: State)
    requires cfg.minBlockRange == DEFAULT_MIN_RANGE && st.next <= st.head < TWO_64 - 1
    ensures FirstRange(cfg, st) == AskedRange(cfg, st, 0)
  {
  }

  /** Every signal a poll pushes carries the time of its batch in milliseconds: the node's seconds
      times a thousand, in 64 bits, or the system clock when the node gives none. */
  lemma PollStamps(cfg: Config, chainId: uint64, st: State, rpc: Rpc)
    ensures var p := PollOf(cfg, chainId, st, rpc);
            var stamp := if rpc.timestamp.Some? then rpc.timestamp.value * 1000 % TWO_64 else rpc.wallClockMs;
            && (forall s :: s in p.pushed ==> s.meta.timestampMs == stamp)
            && (p.batch.Some? ==> p.batch.value.timestampMs == stamp)
            && (rpc.timestamp.Some? && rpc.timestamp.value * 1000 < TWO_64 ==> stamp == rpc.timestamp.value * 1000)
  {
    hide NormalizeAll, Normalized, FetchFrom, FirstRange;
    var seen := if NeedsHead(st) && rpc.head.Some? then Refreshed(cfg, st, rpc.head.value) else st;
    var f := Fetching(cfg, seen, rpc);
    if f.Fetched? {
      AllStamped(f.logs, chainId, BatchTimestamp(rpc), rpc);
    }
    if rpc.timestamp.Some? && rpc.timestamp.value * 1000 < TWO_64 {
      SmallModulus(rpc.timestamp.value * 1000, TWO_64);
    }
  }

  lemma {:induction false} AllStamped(logs: seq<RawLog>, chainId: uint64, timestampMs: uint64, rpc: Rpc)
    ensures forall s :: s in NormalizeAll(logs, chainId, timestampMs, rpc).0 ==> s.meta.timestampMs == timestampMs
  {
    if logs != [] {
      var n := |logs| - 1;
      AllStamped(logs[..n], chainId, timestampMs, rpc);
      Stamped(logs[n], chainId, timestampMs, rpc.stale(n));
      hide Normalized;
    }
  }

  lemma Stamped(raw: RawLog, chainId: uint64, timestampMs: uint64, stale: Word)
    ensures var r := Normalized(raw, chainId, timestampMs, stale);
            r.Success? ==> r.value.meta.timestampMs == timestampMs
  {
    hide HexUint64, Fill, FillTopics, HexCheck, ClassifyTopic0, ActionOf, Event;
  }

  // ---------------------------------------------------------------- what reaches the ring

  /** The cursor moves past a batch only after every log of its answer was normalized and pushed,
      in order; a poll that throws pushes at most an initial part and leaves the cursor. */
  lemma PushedBeforeCommit(cfg: Config, chainId: uint64, st: State, rpc: Rpc)
    ensures var p := PollOf(cfg, chainId, st, rpc);
            && (p.batch.Some? ==>
                 var b := p.batch.value;
                 && !p.threw && |p.pushed| == |b.logs|
                 && (exists n: nat :: rpc.getLogs(Request(n, b.from, b.to)) == Some(b.logs))
                 && forall k :: 0 <= k < |b.logs| ==>
                      Normalized(b.logs[k], chainId, b.timestampMs, rpc.stale(k)) == Success(p.pushed[k]))
            && (p.batch.None? ==> p.pushed == [] || p.threw)
            && (p.threw ==> p.state.next == st.next)
  {
    var seen := if NeedsHead(st) && rpc.head.Some? then Refreshed(cfg, st, rpc.head.value) else st;
    var f := Fetching(cfg, seen, rpc);
    FetchLoop(cfg.minBlockRange, seen.next, FirstRange(cfg, seen), rpc, 0);
    if f.Fetched? {
      NormalizedInOrder(f.logs, chainId, BatchTimestamp(rpc), rpc);
    }
  }

  lemma {:induction false} NormalizedInOrder(logs: seq<RawLog>, chainId: uint64, timestampMs: uint64, rpc: Rpc)
    ensures var (signals, ok) := NormalizeAll(logs, chainId, timestampMs, rpc);
            && |signals| <= |logs| && (ok <==> |signals| == |logs|)
            && (forall k :: 0 <= k < |signals| ==>
                 Normalized(logs[k], chainId, timestampMs, rpc.stale(k)) == Success(signals[k]))
            && (!ok ==> Normalized(logs[|signals|], chainId, timestampMs, rpc.stale(|signals|)).Failure?)
  {
    hide Normalized;
    if logs != [] {
      NormalizedInOrder(logs[..|logs| - 1], chainId, timestampMs, rpc);
    }
  }

  /** The logs a poll gets to see, when it comes to fetching any. */
  function Answered(cfg: Config, st: State, rpc: Rpc): Option<seq<RawLog>> {
    if NeedsHead(st) && (rpc.head.None? || st.cold) then None
    else
      var seen := if NeedsHead(st) then Refreshed(cfg, st, rpc.head.value) else st;
      if seen.next > seen.head then None
      else match Fetching(cfg, seen, rpc)
           case Fetched(_, logs, _) => Some(logs)
           case Refused(_) => None
  }

  /** An answer that starts with a readable log and holds one that is not. */
  predicate BreaksOff(logs: seq<RawLog>) {
    logs != [] && Readable(logs[0]) && exists k :: 0 <= k < |logs| && !Readable(logs[k])
  }

  lemma NormalizeOutcome(logs: seq<RawLog>, chainId: uint64, timestampMs: uint64, rpc: Rpc)
    ensures var (signals, ok) := NormalizeAll(logs, chainId, timestampMs, rpc);
            && (ok <==> forall k :: 0 <= k < |logs| ==> Readable(logs[k]))
            && (!ok && signals != [] <==> BreaksOff(logs))
  {
    hide Normalized, Readable, NormalizeAll;
    NormalizedInOrder(logs, chainId, timestampMs, rpc);
    forall k | 0 <= k < |logs|
      ensures Normalized(logs[k], chainId, timestampMs, rpc.stale(k)).Success? <==> Readable(logs[k])
    {
      ReadableIff(logs[k], chainId, timestampMs, rpc.stale(k));
    }
  }

  /** A poll throws with part of an answer pushed exactly when the answer breaks off. */
  lemma ThrowsAfterPushIff(cfg: Config, chainId: uint64, st: State, rpc: Rpc)
    ensures var p, logs := PollOf(cfg, chainId, st, rpc), Answered(cfg, st, rpc);
            p.threw && p.pushed != [] <==> logs.Some? && BreaksOff(logs.value)
  {
    hide NormalizeAll, Readable, Fetching, BreaksOff;
    var logs := Answered(cfg, st, rpc);
    if logs.Some? {
      NormalizeOutcome(logs.value, chainId, BatchTimestamp(rpc), rpc);
    }
  }

  /** A poll commits a batch exactly when it gets an answer and all of it is readable. */
  lemma CommitsIff(cfg: Config, chainId: uint64, st: State, rpc: Rpc)
    ensures var p, logs := PollOf(cfg, chainId, st, rpc), Answered(cfg, st, rpc);
            && (p.batch.Some? <==> logs.Some? && forall k :: 0 <= k < |logs.value| ==> Readable(logs.value[k]))
            && (p.batch.Some? ==> p.batch.value.logs == logs.value)
  {
    hide NormalizeAll, Readable, Fetching, BreaksOff;
    var logs := Answered(cfg, st, rpc);
    if logs.Some? {
      NormalizeOutcome(logs.value, chainId, BatchTimestamp(rpc), rpc);
    }
  }

  /** The node's answer to the i-th poll of a run breaks off. */
  ghost predicate BreaksOffAt(cfg: Config, chainId: uint64, answers: seq<Rpc>, i: nat)
    requires i < |answers|
  {
    var logs := Answered(cfg, After(cfg, chainId, answers[..i]), answers[i]);
    logs.Some? && BreaksOff(logs.value)
  }

  /** The entries of a are entries of b, in the same order: f says where. */
  ghost predicate Picks<T>(f: seq<nat>, a: seq<T>, b: seq<T>) {
    && |f| == |a|
    && (forall k :: 0 <= k < |f| ==> f[k] < |b| && b[f[k]] == a[k])
    && (forall j, k :: 0 <= j < k < |f| ==> f[j] < f[k])
  }

  ghost predicate Subsequence<T>(a: seq<T>, b: seq<T>) {
    exists f: seq<nat> :: Picks(f, a, b)
  }

  lemma PicksGrow<T>(a: seq<T>, b: seq<T>, more: seq<T>)
    requires Subsequence(a, b)
    ensures Subsequence(a, b + more) && Subsequence(a + more, b + more)
  {
    var f :| Picks(f, a, b);
    assert Picks(f, a, b + more);
    var g := f + seq(|more|, k requires 0 <= k < |more| => |b| + k);
    assert Picks(g, a + more, b + more);
  }

  /** Every log of every committed batch is pushed at least once, in order. A poll that fails
      after pushing part of an answer leaves that part pushed beside what the batches deliver:
      all that is pushed belongs to a committed batch, once for each of its logs, iff no answer
      breaks off. */
  lemma {:induction false} ExactlyOnceIff(cfg: Config, chainId: uint64, answers: seq<Rpc>)
    ensures Subsequence(Delivered(cfg, chainId, answers), Pushed(cfg, chainId, answers))
    ensures Pushed(cfg, chainId, answers) == Delivered(cfg, chainId, answers)
            <==> forall i :: 0 <= i < |answers| ==> !BreaksOffAt(cfg, chainId, answers, i)
  {
    hide PollOf, Subsequence, Answered, BreaksOff;
    if answers == [] {
      NothingPicked<Signal>();
    } else {
      var n := |answers| - 1;
      var q := answers[..n];
      ExactlyOnceIff(cfg, chainId, q);
      BreaksOffSnoc(cfg, chainId, answers);
      var st := After(cfg, chainId, q);
      var p := PollOf(cfg, chainId, st, answers[n]);
      PushedBeforeCommit(cfg, chainId, st, answers[n]);
      ThrowsAfterPushIff(cfg, chainId, st, answers[n]);
      var a, b := Delivered(cfg, chainId, q), Pushed(cfg, chainId, q);
      PicksGrow(a, b, p.pushed);
      SubsequenceLength(a, b);
      if p.batch.Some? {
        SameSuffix(b, a, p.pushed);
      } else {
        assert Delivered(cfg, chainId, answers) == a;
        assert Pushed(cfg, chainId, answers) == b + p.pushed;
      }
    }
  }

  lemma NothingPicked<T>()
    ensures Subsequence<T>([], [])
  {
    assert Picks<T>([], [], []);
  }

  lemma SubsequenceLength<T>(a: seq<T>, b: seq<T>)
    requires Subsequence(a, b)
    ensures |a| <= |b|
  {
    var f :| Picks(f, a, b);
    Climbs(f, |b|);
  }

  lemma {:induction false} Climbs(f: seq<nat>, n: nat)
    requires forall k :: 0 <= k < |f| ==> f[k] < n
    requires forall j, k :: 0 <= j < k < |f| ==> f[j] < f[k]
    ensures |f| <= n
  {
    if f != [] {
      Climbs(f[..|f| - 1], f[|f| - 1]);
    }
  }

  lemma BreaksOffSnoc(cfg: Config, chainId: uint64, answers: seq<Rpc>)
    requires answers != []
    ensures var n := |answers| - 1;
            (forall i :: 0 <= i < |answers| ==> !BreaksOffAt(cfg, chainId, answers, i))
            <==> ((forall i :: 0 <= i < n ==> !BreaksOffAt(cfg, chainId, answers[..n], i))
                  && !BreaksOffAt(cfg, chainId, answers, n))
  {
    hide Answered, BreaksOff, After;
    var n := |answers| - 1;
    var q := answers[..n];
    forall i | 0 <= i < n
      ensures BreaksOffAt(cfg, chainId, q, i) <==> BreaksOffAt(cfg, chainId, answers, i)
    {
      assert q[..i] == answers[..i];
    }
  }

  /** The signals are those of the batches' logs, batch by batch and log by log. */
  ghost predicate Carries(chainId: uint64, batches: seq<Batch>, signals: seq<Signal>) {
    if batches == [] then signals == []
    else
      var n := |batches| - 1;
      var cut := |signals| - |batches[n].logs|;
      && cut >= 0
      && Carries(chainId, batches[..n], signals[..cut])
      && SignalsOf(chainId, batches[n], signals[cut..])
  }

  ghost predicate SignalsOf(chainId: uint64, b: Batch, signals: seq<Signal>) {
    |signals| == |b.logs| && forall k :: 0 <= k < |signals| ==> SignalOf(chainId, b, k, signals[k])
  }

  ghost predicate SignalOf(chainId: uint64, b: Batch, k: nat, s: Signal)
    requires k < |b.logs|
  {
    exists stale :: Normalized(b.logs[k], chainId, b.timestampMs, stale) == Success(s)
  }

  lemma CarriesMore(chainId: uint64, batches: seq<Batch>, signals: seq<Signal>, b: Batch, more: seq<Signal>)
    requires Carries(chainId, batches, signals) && SignalsOf(chainId, b, more)
    ensures Carries(chainId, batches + [b], signals + more)
  {
    hide SignalsOf;
    assert |more| == |b.logs| by { SignalsOfLength(chainId, b, more); }
    assert (batches + [b])[..|batches|] == batches;
    assert (signals + more)[..|signals|] == signals && (signals + more)[|signals|..] == more;
  }

  lemma SignalsOfLength(chainId: uint64, b: Batch, signals: seq<Signal>)
    requires SignalsOf(chainId, b, signals)
    ensures |signals| == |b.logs|
  {
  }

  lemma PollCarries(cfg: Config, chainId: uint64, st: State, rpc: Rpc)
    ensures var p := PollOf(cfg, chainId, st, rpc);
            p.batch.Some? ==> SignalsOf(chainId, p.batch.value, p.pushed)
  {
    hide PollOf, Normalized;
    PushedBeforeCommit(cfg, chainId, st, rpc);
  }

  /** What the committed batches deliver is one signal for each of their logs, in order. */
  lemma {:induction false} DeliveredCarries(cfg: Config, chainId: uint64, answers: seq<Rpc>)
    ensures Carries(chainId, Batches(cfg, chainId, answers), Delivered(cfg, chainId, answers))
  {
    if answers != [] {
      hide PollOf, Carries;
      var n := |answers| - 1;
      var q := answers[..n];
      var st := After(cfg, chainId, q);
      var p := PollOf(cfg, chainId, st, answers[n]);
      DeliveredCarries(cfg, chainId, q);
      PollCarries(cfg, chainId, st, answers[n]);
      if p.batch.Some? {
        CarriesMore(chainId, Batches(cfg, chainId, q), Delivered(cfg, chainId, q), p.batch.value, p.pushed);
      } else {
        assert Batches(cfg, chainId, answers) == Batches(cfg, chainId, q);
        assert Delivered(cfg, chainId, answers) == Delivered(cfg, chainId, q);
      }
    }
  }

  /** On answers that do not break off, what is pushed is exactly one signal for each log of the
      committed batches, in order. */
  lemma UnbrokenRunCarries(cfg: Config, chainId: uint64, answers: seq<Rpc>)
    requires forall i :: 0 <= i < |answers| ==> !BreaksOffAt(cfg, chainId, answers, i)
    ensures Carries(chainId, Batches(cfg, chainId, answers), Pushed(cfg, chainId, answers))
  {
    ExactlyOnceIff(cfg, chainId, answers);
    DeliveredCarries(cfg, chainId, answers);
  }

  lemma SameSuffix<T>(a: seq<T>, b: seq<T>, c: seq<T>)
    ensures a + c == b + c <==> a == b
  {
    if a + c == b + c {
      assert |a| == |b|;
      assert a == (a + c)[..|a|] && b == (b + c)[..|b|];
    }
  }

  function LogWith(blockNumber: string): RawLog {
    RawLog("0x", [], "0x", blockNumber, "0x", "0x0", "0x0", false)
  }

  lemma ReadableLog(chainId: uint64, timestampMs: uint64, stale: Word)
    ensures Normalized(LogWith("0x0"), chainId, timestampMs, stale).Success?
    ensures Normalized(LogWith(""), chainId, timestampMs, stale).Failure?
  {
    assert "0x0"[2..] == "0" && HexNibble('0').Some?;
    assert HexUint64("0x0").Success?;
    assert "0x"[2..2] == "";
    assert forall n: nat :: HexPrefix("0x", n).Success?;
    assert "0x"[2..] == "";
  }

  /** A node that answers every request with a readable log and one that is not. */
  function HalfReadable(stale: Word): Rpc {
    Rpc(Some(5), _ => Some([LogWith("0x0"), LogWith("")]), None, 0, _ => stale, _ => _ => 0, 0)
  }

  lemma HalfPushed(chainId: uint64, stale: Word)
    ensures var (signals, ok) := NormalizeAll([LogWith("0x0"), LogWith("")], chainId, 0, HalfReadable(stale));
            |signals| == 1 && !ok
  {
    ReadableLog(chainId, 0, stale);
    hide Normalized;
    var logs, rpc := [LogWith("0x0"), LogWith("")], HalfReadable(stale);
    assert rpc.stale(0) == stale && rpc.stale(1) == stale;
    var one := [LogWith("0x0")];
    assert one[..0] == [] && NormalizeAll([], chainId, 0, rpc) == ([], true);
    assert NormalizeAll(one, chainId, 0, rpc).1;
    assert logs[..1] == one;
  }

  /** It does happen: after two polls of such a node the readable log was pushed twice, and the
      cursor has not moved. */
  lemma PushedTwice(chainId: uint64, stale: Word)
    ensures var answers := [HalfReadable(stale), HalfReadable(stale)];
            var cfg := Config(1, 10, DEFAULT_MIN_RANGE, 5);
            && |Pushed(cfg, chainId, answers)| == 2
            && Batches(cfg, chainId, answers) == []
            && After(cfg, chainId, answers).next == 1
  {
    HalfPushed(chainId, stale);
    hide NormalizeAll;
    var rpc := HalfReadable(stale);
    var cfg := Config(1, 10, DEFAULT_MIN_RANGE, 5);
    assert [rpc, rpc][..1] == [rpc] && [rpc][..0] == [];
    var signals := NormalizeAll([LogWith("0x0"), LogWith("")], chainId, 0, rpc).0;
    assert After(cfg, chainId, [rpc]) == State(1, 5, false) && Pushed(cfg, chainId, [rpc]) == signals;
    assert PollOf(cfg, chainId, State(1, 5, false), rpc) == Threw(State(1, 5, false), signals);
    assert Batches(cfg, chainId, [rpc]) == [];
  }

  /** Nothing pushed is a poison pill. */
  lemma {:induction false} NoPillPushed(cfg: Config, chainId: uint64, answers: seq<Rpc>)
    ensures forall s :: s in Pushed(cfg, chainId, answers) ==> !s.IsPill()
  {
    if answers != [] {
      var n := |answers| - 1;
      NoPillPushed(cfg, chainId, answers[..n]);
      var st, rpc := After(cfg, chainId, answers[..n]), answers[n];
      var seen := if NeedsHead(st) && rpc.head.Some? then Refreshed(cfg, st, rpc.head.value) else st;
      var f := Fetching(cfg, seen, rpc);
      if f.Fetched? {
        NoPillNormalized(f.logs, chainId, BatchTimestamp(rpc), rpc);
      }
    }
  }

  lemma {:induction false} NoPillNormalized(logs: seq<RawLog>, chainId: uint64, timestampMs: uint64, rpc: Rpc)
    ensures forall s :: s in NormalizeAll(logs, chainId, timestampMs, rpc).0 ==> !s.IsPill()
  {
    if logs != [] {
      var n := |logs| - 1;
      NoPillNormalized(logs[..n], chainId, timestampMs, rpc);
      NeverAPill(logs[n], chainId, timestampMs, rpc.stale(n));
    }
  }

  // ---------------------------------------------------------------- a backtest finishes

  /** A node that knows the whole backtest, serves at least the requests for a single block, and
      sends readable logs when it serves any. */
  ghost predicate Healthy(cfg: Config, chainId: uint64, rpc: Rpc) {
    && rpc.head.Some? && cfg.backtestEndBlock <= rpc.head.value < TWO_64 - 1
    && (forall r: Request :: r.from == r.to ==> rpc.getLogs(r).Some?)
    && (forall r: Request :: rpc.getLogs(r).Some? ==>
         NormalizeAll(rpc.getLogs(r).value, chainId, BatchTimestamp(rpc), rpc).1)
  }

  function Remaining(cfg: Config, st: State): int {
    cfg.backtestEndBlock + 1 - st.next + if st.cold then 1 else 0
  }

  lemma HealthyPollAdvances(cfg: Config, chainId: uint64, st: State, rpc: Rpc)
    requires cfg.minBlockRange == DEFAULT_MIN_RANGE && Sound(cfg, st) && cfg.backtestEndBlock != 0
             && Healthy(cfg, chainId, rpc)
    requires st.next <= cfg.backtestEndBlock
    ensures Remaining(cfg, PollOf(cfg, chainId, st, rpc).state) < Remaining(cfg, st)
  {
    var seen := if NeedsHead(st) then Refreshed(cfg, st, rpc.head.value) else st;
    assert seen.next <= seen.head;
    FetchLoop(cfg.minBlockRange, seen.next, FirstRange(cfg, seen), rpc, 0);
    assert LastBlock(seen.next, 1) == seen.next;
    assert Fetching(cfg, seen, rpc).Fetched?;
    WorkStaysInside(cfg, chainId, seen, rpc);
  }

  /** Against a healthy node a backtest is past its end after at most one poll per block, and one
      more for a cold start. */
  lemma {:induction false} HealthyBacktestFinishes(cfg: Config, chainId: uint64, answers: seq<Rpc>)
    requires cfg.minBlockRange == DEFAULT_MIN_RANGE && cfg.backtestEndBlock != 0 && Bounded(cfg, answers)
    requires forall i :: 0 <= i < |answers| ==> Healthy(cfg, chainId, answers[i])
    ensures PastEnd(cfg, After(cfg, chainId, answers))
            || Remaining(cfg, After(cfg, chainId, answers)) <= Remaining(cfg, Initial(cfg)) - |answers|
    ensures |answers| >= Remaining(cfg, Initial(cfg)) ==> PastEnd(cfg, After(cfg, chainId, answers))
  {
    if answers != [] {
      var n := |answers| - 1;
      var st := After(cfg, chainId, answers[..n]);
      HealthyBacktestFinishes(cfg, chainId, answers[..n]);
      AlwaysSound(cfg, chainId, answers[..n]);
      PollKeepsSound(cfg, chainId, st, answers[n]);
      if st.next <= cfg.backtestEndBlock {
        HealthyPollAdvances(cfg, chainId, st, answers[n]);
      }
    }
  }
}
