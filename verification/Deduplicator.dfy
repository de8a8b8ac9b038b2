/** The alert deduplicator (src/risk/alert_deduplicator.cpp): a map from keys to the time they
    were last sent, swept every few alerts. */
module Deduplicator {
  import opened Results
  import opened Numbers
  import opened Hex
  import opened Signals

  datatype Config = Config(
    defaultWindowMs: uint64, perRuleWindowMs: map<string, uint64>, cleanupEveryNAlerts: uint64)
  {
    function Window(a: Alert): uint64 {
      if a.ruleType in perRuleWindowMs then perRuleWindowMs[a.ruleType] else defaultWindowMs
    }

    /** Alerts between one sweep and the next. */
    function Period(): (p: nat)
      ensures 0 < p < TWO_64
    {
      if cleanupEveryNAlerts == 0 then 1 else cleanupEveryNAlerts
    }

    predicate IsMaxWindow(w: nat) {
      && defaultWindowMs <= w
      && (forall r :: r in perRuleWindowMs ==> perRuleWindowMs[r] <= w)
      && (w == defaultWindowMs || exists r :: r in perRuleWindowMs && perRuleWindowMs[r] == w)
    }
  }

  // ---------------------------------------------------------------- keys

  function ChainText(chain: Option<uint64>): string {
    if chain.Some? then Decimal(chain.value) else "-"
  }

  function BuildKey(a: Alert): string {
    Decimal(a.customerId) + "|" + a.ruleType + "|" + ChainText(a.chainId) + "|" + a.tokenAddress.GetOr("")
  }

  /** What the key is meant to stand for; a missing token counts as the empty one. */
  function Identity(a: Alert): (uint64, string, Option<uint64>, string) {
    (a.customerId, a.ruleType, a.chainId, a.tokenAddress.GetOr(""))
  }

  predicate NoBar(s: string) {
    '|' !in s
  }

  lemma DecimalHasNoBar(n: nat)
    ensures NoBar(Decimal(n)) && Decimal(n) != "-"
  {
    assert IsDecimalDigit(Decimal(n)[0]) && !IsDecimalDigit("-"[0]);
  }

  lemma ChainTextInjective(c: Option<uint64>, d: Option<uint64>)
    ensures NoBar(ChainText(c))
    ensures ChainText(c) == ChainText(d) ==> c == d
  {
    if c.Some? {
      DecimalHasNoBar(c.value);
    }
    if d.Some? {
      DecimalHasNoBar(d.value);
    }
    if c.Some? && d.Some? && ChainText(c) == ChainText(d) {
      DecimalInjective(c.value, d.value);
    }
  }

  /** Where the first bar is; the length when there is none. */
  function FirstBar(s: string): (i: nat) {
    if s == "" || s[0] == '|' then 0 else 1 + FirstBar(s[1..])
  }

  lemma {:induction false} FirstBarAt(x: string, s: string)
    ensures FirstBar(x + "|" + s) <= |x|
    ensures NoBar(x) ==> FirstBar(x + "|" + s) == |x|
  {
    if x != "" {
      FirstBarAt(x[1..], s);
      assert (x + "|" + s)[1..] == x[1..] + "|" + s;
    }
  }

  /** Bar-free text is cut off at the first bar. */
  lemma FirstField(x: string, s: string, y: string, t: string)
    requires x + "|" + s == y + "|" + t && NoBar(x) && NoBar(y)
    ensures x == y && s == t
  {
    FirstBarAt(x, s);
    FirstBarAt(y, t);
    SplitAt(x, s, y, t);
  }

  lemma SplitAt(x: string, s: string, y: string, t: string)
    requires x + "|" + s == y + "|" + t && |x| == |y|
    ensures x == y && s == t
  {
    var u, v := x + "|" + s, y + "|" + t;
    assert x == u[..|x|] && y == v[..|y|];
    assert s == u[|x| + 1..] && t == v[|y| + 1..];
  }

  /** The key with its first bar made explicit. */
  lemma KeyParts(a: Alert)
    ensures BuildKey(a) == Decimal(a.customerId) + "|"
            + (a.ruleType + "|" + (ChainText(a.chainId) + "|" + a.tokenAddress.GetOr("")))
  {
  }

  /** Two rule types are confusable when the longer one reads as the shorter one followed by a
      chain field of its own. */
  ghost predicate Confusable(short: string, long: string) {
    exists c: Option<uint64> :: short + "|" + ChainText(c) + "|" <= long + "|"
  }

  /** Keys of alerts with these two rule types never collide unless the alerts are the same to
      the deduplicator. */
  ghost predicate KeysTellApart(r: string, s: string) {
    forall a: Alert, b: Alert ::
      a.ruleType == r && b.ruleType == s && BuildKey(a) == BuildKey(b) ==> Identity(a) == Identity(b)
  }

  lemma SameIdentitySameKey(a: Alert, b: Alert)
    requires Identity(a) == Identity(b)
    ensures BuildKey(a) == BuildKey(b)
  {
  }

  lemma TailFields(a: Alert, b: Alert)
    requires a.ruleType == b.ruleType && BuildKey(a) == BuildKey(b)
    ensures Identity(a) == Identity(b)
  {
    KeyParts(a);
    KeyParts(b);
    DecimalHasNoBar(a.customerId);
    DecimalHasNoBar(b.customerId);
    var ta := ChainText(a.chainId) + "|" + a.tokenAddress.GetOr("");
    var tb := ChainText(b.chainId) + "|" + b.tokenAddress.GetOr("");
    FirstField(Decimal(a.customerId), a.ruleType + "|" + ta, Decimal(b.customerId), b.ruleType + "|" + tb);
    DecimalInjective(a.customerId, b.customerId);
    SplitAt(a.ruleType, ta, b.ruleType, tb);
    ChainTextInjective(a.chainId, b.chainId);
    ChainTextInjective(b.chainId, a.chainId);
    FirstField(ChainText(a.chainId), a.tokenAddress.GetOr(""), ChainText(b.chainId), b.tokenAddress.GetOr(""));
  }

  /** Bar-free text in front of a bar is in front of any other cut of the same text at a bar. */
  lemma FieldInside(c: string, x: string, rest: string, t: string)
    requires NoBar(c) && c + "|" + x == rest + "|" + t
    ensures c + "|" <= rest + "|"
  {
    FirstBarAt(c, x);
    FirstBarAt(rest, t);
    var s := c + "|" + x;
    assert s[..|c| + 1] == c + "|" && s[..|rest| + 1] == rest + "|";
    assert s[..|rest| + 1][..|c| + 1] == s[..|c| + 1];
  }

  lemma LongerHead(short: string, s: string, long: string, t: string)
    requires short + "|" + s == long + "|" + t && |short| < |long|
    ensures long == short + "|" + long[|short| + 1..]
    ensures s == long[|short| + 1..] + "|" + t
  {
    var u := short + "|" + s;
    assert long == u[..|long|];
    assert s == u[|short| + 1..];
  }

  lemma SamePrefix(head: string, a: string, b: string)
    requires a <= b
    ensures head + a <= head + b
  {
  }

  /** A collision across rule types of different lengths exposes a chain field inside the longer. */
  lemma CollisionIsConfusable(a: Alert, b: Alert)
    requires BuildKey(a) == BuildKey(b) && |a.ruleType| < |b.ruleType|
    ensures Confusable(a.ruleType, b.ruleType)
  {
    hide BuildKey, ChainText;
    KeyParts(a);
    KeyParts(b);
    DecimalHasNoBar(a.customerId);
    DecimalHasNoBar(b.customerId);
    ChainTextInjective(a.chainId, a.chainId);
    var short, long, c := a.ruleType, b.ruleType, ChainText(a.chainId);
    var s, t := c + "|" + a.tokenAddress.GetOr(""), ChainText(b.chainId) + "|" + b.tokenAddress.GetOr("");
    FirstField(Decimal(a.customerId), short + "|" + s, Decimal(b.customerId), long + "|" + t);
    LongerHead(short, s, long, t);
    var rest := long[|short| + 1..];
    FieldInside(c, a.tokenAddress.GetOr(""), rest, t);
    SamePrefix(short + "|", c + "|", rest + "|");
    assert short + "|" + c + "|" == short + "|" + (c + "|") && long + "|" == short + "|" + (rest + "|");
  }

  /** Confusable rule types do collide: the token text of one alert spells the rest of the
      longer rule type and a chain field for it. */
  lemma ConfusableCollides(short: string, long: string)
    requires Confusable(short, long)
    ensures !KeysTellApart(short, long)
  {
    var c: Option<uint64> :| short + "|" + ChainText(c) + "|" <= long + "|";
    var head := short + "|" + ChainText(c) + "|";
    var rest := (long + "|")[|head|..];
    var a := Alert(1, short, "", 0, None, Some(rest + "-|"), c);
    var b := Alert(1, long, "", 0, None, Some(""), None);
    SpelledOut(Decimal(1), short, ChainText(c), rest, long);
    assert BuildKey(a) == BuildKey(b);
    assert |short| + 2 <= |head| <= |long| + 1;
    assert Identity(a) != Identity(b);
  }

  lemma SpelledOut(id: string, short: string, c: string, rest: string, long: string)
    requires long + "|" == short + "|" + c + "|" + rest
    ensures id + "|" + long + "|" + "-" + "|" + "" == id + "|" + short + "|" + c + "|" + (rest + "-|")
  {
    assert id + "|" + long + "|" + "-" + "|" + "" == id + "|" + (long + "|") + "-|";
    assert id + "|" + (short + "|" + c + "|" + rest) + "-|" == id + "|" + short + "|" + c + "|" + (rest + "-|");
  }

  /** The exact condition for keys to be unambiguous between two rule types. */
  lemma KeysTellApartIff(r: string, s: string)
    ensures KeysTellApart(r, s) <==> !Confusable(r, s) && !Confusable(s, r)
  {
    if Confusable(r, s) {
      ConfusableCollides(r, s);
    }
    if Confusable(s, r) {
      ConfusableCollides(s, r);
      assert KeysTellApart(r, s) ==> KeysTellApart(s, r);
    }
    if !Confusable(r, s) && !Confusable(s, r) {
      forall a: Alert, b: Alert | a.ruleType == r && b.ruleType == s && BuildKey(a) == BuildKey(b)
        ensures Identity(a) == Identity(b)
      {
        if |r| < |s| {
          CollisionIsConfusable(a, b);
        } else if |s| < |r| {
          CollisionIsConfusable(b, a);
        } else {
          SameLengthSameRule(a, b);
          TailFields(a, b);
        }
      }
    }
  }

  /** Such pairs exist: "a" and "a|-". */
  lemma SomeAreConfusable()
    ensures Confusable("a", "a|-") && !KeysTellApart("a", "a|-")
  {
    assert "a" + "|" + ChainText(None) + "|" <= "a|-" + "|";
    ConfusableCollides("a", "a|-");
  }

  lemma SameLengthSameRule(a: Alert, b: Alert)
    requires BuildKey(a) == BuildKey(b) && |a.ruleType| == |b.ruleType|
    ensures a.ruleType == b.ruleType
  {
    KeyParts(a);
    KeyParts(b);
    DecimalHasNoBar(a.customerId);
    DecimalHasNoBar(b.customerId);
    FirstField(Decimal(a.customerId), a.ruleType + "|" + (ChainText(a.chainId) + "|" + a.tokenAddress.GetOr("")),
               Decimal(b.customerId), b.ruleType + "|" + (ChainText(b.chainId) + "|" + b.tokenAddress.GetOr("")));
    SplitAt(a.ruleType, ChainText(a.chainId) + "|" + a.tokenAddress.GetOr(""),
            b.ruleType, ChainText(b.chainId) + "|" + b.tokenAddress.GetOr(""));
  }

  /** Rule types without a bar are never confusable, so their keys are their identities. */
  lemma BarFreeKeys(a: Alert, b: Alert)
    requires NoBar(a.ruleType) && NoBar(b.ruleType)
    ensures BuildKey(a) == BuildKey(b) <==> Identity(a) == Identity(b)
  {
    if Confusable(a.ruleType, b.ruleType) {
      BarInside(a.ruleType, b.ruleType);
    }
    if Confusable(b.ruleType, a.ruleType) {
      BarInside(b.ruleType, a.ruleType);
    }
    KeysTellApartIff(a.ruleType, b.ruleType);
    if Identity(a) == Identity(b) {
      SameIdentitySameKey(a, b);
    }
  }

  lemma BarInside(short: string, long: string)
    requires Confusable(short, long)
    ensures '|' in long
  {
    var c: Option<uint64> :| short + "|" + ChainText(c) + "|" <= long + "|";
    var head := short + "|" + ChainText(c) + "|";
    assert head[|short|] == '|' && (long + "|")[|short|] == '|';
    assert long[|short|] == '|';
  }

  // ---------------------------------------------------------------- one alert

  datatype State = State(last: map<string, uint64>, processed: nat)

  /** The entries a sweep at time now keeps: none when the clock says it is older than w. */
  function Swept(last: map<string, uint64>, now: nat, w: nat): map<string, uint64> {
    map k | k in last && now <= last[k] + w :: last[k]
  }

  predicate Suppresses(cfg: Config, last: map<string, uint64>, a: Alert, now: nat) {
    BuildKey(a) in last && now < last[BuildKey(a)] + cfg.Window(a)
  }

  function Record(cfg: Config, last: map<string, uint64>, a: Alert, now: uint64): map<string, uint64> {
    if Suppresses(cfg, last, a, now) then last else last[BuildKey(a) := now]
  }

  function Step(cfg: Config, w: nat, st: State, a: Alert, now: uint64): State {
    var last := Record(cfg, st.last, a, now);
    if st.processed + 1 >= cfg.cleanupEveryNAlerts then State(Swept(last, now, w), 0)
    else State(last, st.processed + 1)
  }

  class AlertDeduplicator {
    const cfg: Config
    var lastFiredMs: map<string, uint64>
    var alertsProcessedSinceCleanup: uint64
    var maxConfiguredWindowMs: uint64

    predicate Valid()
      reads this
    {
      && cfg.IsMaxWindow(maxConfiguredWindowMs)
      && alertsProcessedSinceCleanup < cfg.Period()
    }

    function Abstract(): State
      reads this
    {
      State(lastFiredMs, alertsProcessedSinceCleanup)
    }

    constructor (cfg: Config)
      ensures Valid() && this.cfg == cfg && Abstract() == State(map[], 0)
    {
      this.cfg := cfg;
      lastFiredMs := map[];
      alertsProcessedSinceCleanup := 0;
      maxConfiguredWindowMs := cfg.defaultWindowMs;
      new;
      var rules := cfg.perRuleWindowMs.Keys;
      while rules != {}
        invariant rules <= cfg.perRuleWindowMs.Keys
        invariant lastFiredMs == map[] && alertsProcessedSinceCleanup == 0
        invariant cfg.defaultWindowMs <= maxConfiguredWindowMs
        invariant forall r :: r in cfg.perRuleWindowMs && r !in rules ==>
                    cfg.perRuleWindowMs[r] <= maxConfiguredWindowMs
        invariant maxConfiguredWindowMs == cfg.defaultWindowMs ||
                  exists r :: r in cfg.perRuleWindowMs && cfg.perRuleWindowMs[r] == maxConfiguredWindowMs
      {
        var r :| r in rules;
        if maxConfiguredWindowMs < cfg.perRuleWindowMs[r] {
          maxConfiguredWindowMs := cfg.perRuleWindowMs[r];
        }
        rules := rules - {r};
      }
    }

    method ShouldSuppress(alert: Alert, nowMs: uint64) returns (suppress: bool)
      requires Valid()
      modifies this
      ensures Valid() && maxConfiguredWindowMs == old(maxConfiguredWindowMs)
      ensures suppress <==> Suppresses(cfg, old(lastFiredMs), alert, nowMs)
      ensures Abstract() == Step(cfg, maxConfiguredWindowMs, old(Abstract()), alert, nowMs)
    {
      var key := BuildKey(alert);
      var window := if alert.ruleType in cfg.perRuleWindowMs then cfg.perRuleWindowMs[alert.ruleType]
          else cfg.defaultWindowMs;
      suppress := false;
      if key !in lastFiredMs {
        lastFiredMs := lastFiredMs[key := nowMs];
      } else if nowMs < lastFiredMs[key] || nowMs - lastFiredMs[key] < window {
        suppress := true;
      } else {
        lastFiredMs := lastFiredMs[key := nowMs];
      }
      alertsProcessedSinceCleanup := alertsProcessedSinceCleanup + 1;
      if alertsProcessedSinceCleanup >= cfg.cleanupEveryNAlerts {
        var _ := CleanupStaleEntries(nowMs);
        alertsProcessedSinceCleanup := 0;
      }
    }

    /** Removes the entries older than the longest window and counts them. */
    method CleanupStaleEntries(nowMs: uint64) returns (removed: nat)
      modifies this`lastFiredMs
      ensures lastFiredMs == Swept(old(lastFiredMs), nowMs, maxConfiguredWindowMs)
      ensures removed + |lastFiredMs| == |old(lastFiredMs)|
    {
      removed := 0;
      var todo := lastFiredMs.Keys;
      while todo != {}
        invariant todo <= lastFiredMs.Keys <= old(lastFiredMs).Keys
        invariant forall k :: k in lastFiredMs ==> lastFiredMs[k] == old(lastFiredMs)[k]
        invariant forall k :: k in old(lastFiredMs) && k !in todo ==>
                    (k in lastFiredMs <==> nowMs <= old(lastFiredMs)[k] + maxConfiguredWindowMs)
        invariant removed + |lastFiredMs| == |old(lastFiredMs)|
      {
        var k :| k in todo;
        todo := todo - {k};
        if nowMs >= lastFiredMs[k] && nowMs - lastFiredMs[k] > maxConfiguredWindowMs {
          RemoveOne(lastFiredMs, k);
          lastFiredMs := lastFiredMs - {k};
          removed := removed + 1;
        }
      }
    }
  }

  lemma RemoveOne(m: map<string, uint64>, k: string)
    requires k in m
    ensures |m - {k}| == |m| - 1
  {
    assert (m - {k}).Keys == m.Keys - {k};
  }

  // ---------------------------------------------------------------- whole runs

  datatype Event = Event(alert: Alert, now: uint64)

  /** The state after a run, from an empty deduplicator. */
  function Run(cfg: Config, w: nat, events: seq<Event>): State {
    if events == [] then State(map[], 0)
    else
      var e := events[|events| - 1];
      Step(cfg, w, Run(cfg, w, events[..|events| - 1]), e.alert, e.now)
  }

  /** Whether the i-th alert of a run is suppressed. */
  predicate Suppressed(cfg: Config, w: nat, events: seq<Event>, i: nat)
    requires i < |events|
  {
    Suppresses(cfg, Run(cfg, w, events[..i]).last, events[i].alert, events[i].now)
  }

  /** The same deduplicator without any sweep: it remembers every key for ever. */
  function Remember(cfg: Config, events: seq<Event>): map<string, uint64> {
    if events == [] then map[]
    else
      var e := events[|events| - 1];
      Record(cfg, Remember(cfg, events[..|events| - 1]), e.alert, e.now)
  }

  predicate RememberSuppressed(cfg: Config, events: seq<Event>, i: nat)
    requires i < |events|
  {
    Suppresses(cfg, Remember(cfg, events[..i]), events[i].alert, events[i].now)
  }

  /** How many of the first n alerts came after the last sweep. */
  function SinceSweep(cfg: Config, n: nat): (c: nat)
    ensures c <= n && c < cfg.Period()
  {
    if n == 0 || SinceSweep(cfg, n - 1) + 1 >= cfg.Period() then 0 else SinceSweep(cfg, n - 1) + 1
  }

  /** The run sweeps right after its i-th alert. */
  predicate SweepsAfter(cfg: Config, i: nat) {
    SinceSweep(cfg, i + 1) == 0
  }

  lemma {:induction false} SinceSweepIsModulo(cfg: Config, n: nat)
    ensures SinceSweep(cfg, n) == n % cfg.Period()
  {
    if n > 0 {
      SinceSweepIsModulo(cfg, n - 1);
      NextModulo(n - 1, cfg.Period());
    }
  }

  /** No reading falls back into the longest window of an alert that an earlier sweep already
      took for stale. A clock that never runs backwards satisfies this. */
  ghost predicate ClockSafe(cfg: Config, w: nat, clock: seq<uint64>) {
    forall h, i, j :: 0 <= h <= i < j < |clock| && SweepsAfter(cfg, i) && clock[i] > clock[h] + w
        ==> clock[j] >= clock[h] + w
  }

  function Clock(events: seq<Event>): (c: seq<uint64>)
    ensures |c| == |events|
  {
    seq(|events|, i requires 0 <= i < |events| => events[i].now)
  }

  ghost predicate NonDecreasing(clock: seq<uint64>) {
    forall i, j :: 0 <= i <= j < |clock| ==> clock[i] <= clock[j]
  }

  lemma NonDecreasingIsSafe(cfg: Config, w: nat, clock: seq<uint64>)
    requires NonDecreasing(clock)
    ensures ClockSafe(cfg, w, clock)
  {
  }

  /** Counting in steps of the period. */
  lemma {:induction false} ProcessedCount(cfg: Config, w: nat, events: seq<Event>)
    ensures Run(cfg, w, events).processed == SinceSweep(cfg, |events|)
  {
    if events != [] {
      ProcessedCount(cfg, w, events[..|events| - 1]);
    }
  }

  lemma NextModulo(n: nat, p: nat)
    requires p > 0
    ensures (n + 1) % p == if n % p + 1 >= p then 0 else n % p + 1
  {
    var q, r := n / p, n % p;
    DivIdentity(n, p);
    if r + 1 >= p {
      assert n + 1 == (q + 1) * p + 0 by {
        assert (q + 1) * p == q * p + p;
      }
      DivMod(q + 1, 0, p);
    } else {
      DivMod(q, r + 1, p);
    }
  }

  /** What the swept map is to the unswept one: part of it, missing only keys that some sweep
      found older than the longest window. */
  ghost predicate SweptPart(cfg: Config, w: nat, events: seq<Event>) {
    var swept, full := Run(cfg, w, events).last, Remember(cfg, events);
    && (forall k :: k in swept ==> k in full && swept[k] == full[k])
    && (forall k :: k in full && k !in swept ==> StaleSweep(cfg, w, events, full[k]))
  }

  ghost predicate StaleSweep(cfg: Config, w: nat, events: seq<Event>, t: nat) {
    exists h, i :: 0 <= h <= i < |events| && events[h].now == t && SweepsAfter(cfg, i) && events[i].now > t + w
  }

  ghost predicate Stamped(events: seq<Event>, last: map<string, uint64>) {
    forall k :: k in last ==> exists h :: 0 <= h < |events| && events[h].now == last[k]
  }

  lemma {:induction false} RememberStamped(cfg: Config, events: seq<Event>)
    ensures Stamped(events, Remember(cfg, events))
  {
    if events != [] {
      var q, e := events[..|events| - 1], events[|events| - 1];
      RememberStamped(cfg, q);
      forall k | k in Remember(cfg, events)
        ensures exists h :: 0 <= h < |events| && events[h].now == Remember(cfg, events)[k]
      {
        if k == BuildKey(e.alert) && Remember(cfg, events)[k] == e.now {
          assert events[|events| - 1].now == Remember(cfg, events)[k];
        } else {
          var h :| 0 <= h < |q| && q[h].now == Remember(cfg, q)[k];
          assert events[h].now == Remember(cfg, events)[k];
        }
      }
    }
  }

  /** On a safe clock a key that was swept away is one the unswept map would send again. */
  lemma StaleIsSendable(cfg: Config, w: nat, events: seq<Event>, e: Event, t: nat)
    requires cfg.IsMaxWindow(w) && ClockSafe(cfg, w, Clock(events + [e]))
    requires StaleSweep(cfg, w, events, t)
    ensures e.now >= t + cfg.Window(e.alert)
  {
    var h, i :| 0 <= h <= i < |events| && events[h].now == t && SweepsAfter(cfg, i) && events[i].now > t + w;
    var clock := Clock(events + [e]);
    assert clock[h] == t && clock[i] == events[i].now && clock[|events|] == e.now;
  }

  lemma SafePrefix(cfg: Config, w: nat, events: seq<Event>, n: nat)
    requires n <= |events| && ClockSafe(cfg, w, Clock(events))
    ensures ClockSafe(cfg, w, Clock(events[..n]))
  {
    var c, d := Clock(events), Clock(events[..n]);
    assert forall i :: 0 <= i < n ==> d[i] == c[i];
  }

  lemma StaleStays(cfg: Config, w: nat, events: seq<Event>, e: Event, t: nat)
    requires StaleSweep(cfg, w, events, t)
    ensures StaleSweep(cfg, w, events + [e], t)
  {
    var h, i :| 0 <= h <= i < |events| && events[h].now == t && SweepsAfter(cfg, i) && events[i].now > t + w;
    var longer := events + [e];
    assert longer[h].now == t && longer[i].now > t + w;
  }

  lemma {:induction false} SweptPartAlways(cfg: Config, w: nat, events: seq<Event>)
    requires cfg.IsMaxWindow(w) && ClockSafe(cfg, w, Clock(events))
    ensures SweptPart(cfg, w, events)
  {
    if events != [] {
      var n := |events| - 1;
      var q, e := events[..n], events[n];
      assert events == q + [e];
      SafePrefix(cfg, w, events, n);
      SweptPartAlways(cfg, w, q);
      SameDecision(cfg, w, q, e);
      ProcessedCount(cfg, w, q);
      RememberStamped(cfg, events);
      var st, full, was := Run(cfg, w, events), Remember(cfg, events), Remember(cfg, q);
      var last := Record(cfg, Run(cfg, w, q).last, e.alert, e.now);
      forall k | k in full && k !in st.last
        ensures StaleSweep(cfg, w, events, full[k])
      {
        if k in last {
          assert SweepsAfter(cfg, n) && e.now > full[k] + w;
          var h :| 0 <= h < |events| && events[h].now == full[k];
          assert h <= n && events[n].now > full[k] + w;
        } else {
          assert k in was && full[k] == was[k];
          StaleStays(cfg, w, q, e, full[k]);
        }
      }
    }
  }

  lemma SameDecision(cfg: Config, w: nat, events: seq<Event>, e: Event)
    requires cfg.IsMaxWindow(w) && ClockSafe(cfg, w, Clock(events + [e]))
    requires SweptPart(cfg, w, events)
    ensures Suppresses(cfg, Run(cfg, w, events).last, e.alert, e.now)
            <==> Suppresses(cfg, Remember(cfg, events), e.alert, e.now)
  {
    var k, full := BuildKey(e.alert), Remember(cfg, events);
    if k in full && k !in Run(cfg, w, events).last {
      StaleIsSendable(cfg, w, events, e, full[k]);
    }
  }

  /** Sweeping changes no decision: on a safe clock the deduplicator decides as one that never
      forgets. */
  lemma SweepingIsInvisible(cfg: Config, w: nat, events: seq<Event>, i: nat)
    requires cfg.IsMaxWindow(w) && ClockSafe(cfg, w, Clock(events)) && i < |events|
    ensures Suppressed(cfg, w, events, i) <==> RememberSuppressed(cfg, events, i)
  {
    assert events[..i + 1] == events[..i] + [events[i]];
    SafePrefix(cfg, w, events, i + 1);
    SafePrefix(cfg, w, events, i);
    SweptPartAlways(cfg, w, events[..i]);
    SameDecision(cfg, w, events[..i], events[i]);
  }

  ghost predicate SweepingInvisibleOn(cfg: Config, w: nat, clock: seq<uint64>) {
    forall events, i :: Clock(events) == clock && 0 <= i < |events| ==>
      (Suppressed(cfg, w, events, i) <==> RememberSuppressed(cfg, events, i))
  }

  /** Safety of the clock is exactly what sweeping needs: on any other clock some stream of
      alerts is decided differently. */
  lemma SweepingInvisibleIff(cfg: Config, w: nat, clock: seq<uint64>)
    requires cfg.IsMaxWindow(w)
    ensures SweepingInvisibleOn(cfg, w, clock) <==> ClockSafe(cfg, w, clock)
  {
    if ClockSafe(cfg, w, clock) {
      forall events, i | Clock(events) == clock && 0 <= i < |events|
        ensures Suppressed(cfg, w, events, i) <==> RememberSuppressed(cfg, events, i)
      {
        SweepingIsInvisible(cfg, w, events, i);
      }
    } else {
      var h, i, j :| 0 <= h <= i < j < |clock| && SweepsAfter(cfg, i) && clock[i] > clock[h] + w
          && clock[j] < clock[h] + w;
      var rule := RuleOf(cfg, w);
      var events := Probe(rule, clock, h, j);
      ForgottenProbe(cfg, w, rule, clock, h, i, j);
      assert Clock(events) == clock;
    }
  }

  /** A rule type with the given window. */
  lemma RuleOf(cfg: Config, window: uint64) returns (rule: string)
    requires IsWindow(cfg, window)
    ensures forall a: Alert :: a.ruleType == rule ==> cfg.Window(a) == window
  {
    if r :| r in cfg.perRuleWindowMs && cfg.perRuleWindowMs[r] == window {
      rule := r;
    } else {
      var n := LongestName(cfg.perRuleWindowMs.Keys);
      rule := seq(n + 1, _ => 'a');
    }
  }

  lemma LongestName(names: set<string>) returns (n: nat)
    ensures forall s :: s in names ==> |s| <= n
  {
    n := 0;
    var todo := names;
    while todo != {}
      invariant forall s :: s in names && s !in todo ==> |s| <= n
    {
      var s :| s in todo;
      todo := todo - {s};
      n := if |s| > n then |s| else n;
    }
  }

  function ProbeAlert(rule: string, customer: uint64): Alert {
    Alert(customer, rule, "", 0, None, None, None)
  }

  /** One customer's alert at h and at j, another's everywhere else. */
  function Probe(rule: string, clock: seq<uint64>, h: nat, j: nat): (events: seq<Event>)
    ensures |events| == |clock|
  {
    seq(|clock|, m requires 0 <= m < |clock| => Event(ProbeAlert(rule, if m == h || m == j then 0 else 1), clock[m]))
  }

  lemma ForgottenProbe(cfg: Config, w: nat, rule: string, clock: seq<uint64>, h: nat, i: nat, j: nat)
    requires h <= i < j < |clock| && SweepsAfter(cfg, i)
    requires clock[i] > clock[h] + w && clock[j] < clock[h] + w
    requires forall a: Alert :: a.ruleType == rule ==> cfg.Window(a) == w
    ensures var events := Probe(rule, clock, h, j);
            !Suppressed(cfg, w, events, j) && RememberSuppressed(cfg, events, j)
  {
    var events := Probe(rule, clock, h, j);
    ProbeKeysDiffer(rule);
    ProbeHistory(cfg, w, events, BuildKey(ProbeAlert(rule, 0)), h, i, j);
    assert events[j].alert == ProbeAlert(rule, 0);
  }

  /** A key sent at event h only, at time t: remembered ever after, but forgotten by the swept
      map once event i is past. */
  ghost predicate Forgotten(
    swept: map<string, uint64>, full: map<string, uint64>, key: string, h: nat, i: nat, n: nat, t: uint64) {
    && (n <= h ==> key !in swept && key !in full)
    && (n > h ==> key in full && full[key] == t)
    && (n > h && key in swept ==> swept[key] == t)
    && (n > i ==> key !in swept)
  }

  ghost predicate ForgottenAfter(cfg: Config, w: nat, events: seq<Event>, key: string, h: nat, i: nat, n: nat)
    requires h < |events| && n <= |events|
  {
    Forgotten(Run(cfg, w, events[..n]).last, Remember(cfg, events[..n]), key, h, i, n, events[h].now)
  }

  lemma {:induction false} ProbeHistory(cfg: Config, w: nat, events: seq<Event>, key: string, h: nat, i: nat, n: nat)
    requires h <= i < |events| && n <= |events| && SweepsAfter(cfg, i) && events[i].now > events[h].now + w
    requires forall m :: 0 <= m < n ==> (BuildKey(events[m].alert) == key <==> m == h)
    ensures ForgottenAfter(cfg, w, events, key, h, i, n)
    decreases n
  {
    if n > 0 {
      hide BuildKey, ForgottenAfter;
      ProbeHistory(cfg, w, events, key, h, i, n - 1);
      ProbeOne(cfg, w, events, key, h, i, n);
    }
  }

  lemma ProbeOne(cfg: Config, w: nat, events: seq<Event>, key: string, h: nat, i: nat, n: nat)
    requires h < i < |events| && 0 < n <= |events| && SweepsAfter(cfg, i) && events[i].now > events[h].now + w
    requires BuildKey(events[n - 1].alert) == key <==> n - 1 == h
    requires ForgottenAfter(cfg, w, events, key, h, i, n - 1)
    ensures ForgottenAfter(cfg, w, events, key, h, i, n)
  {
    hide Step, Record, BuildKey, Forgotten;
    var q, e := events[..n - 1], events[n - 1];
    assert events[..n][..n - 1] == q;
    ProcessedCount(cfg, w, q);
    ProbeStep(cfg, w, Run(cfg, w, q), Remember(cfg, q), e, key, h, i, n - 1, events[h].now);
  }

  lemma ProbeStep(
    cfg: Config, w: nat, st: State, full: map<string, uint64>, e: Event, key: string, h: nat, i: nat, n: nat, t: uint64)
    requires h < i && Forgotten(st.last, full, key, h, i, n, t)
    requires BuildKey(e.alert) == key <==> n == h
    requires n == h ==> e.now == t
    requires n == i ==> st.processed + 1 >= cfg.cleanupEveryNAlerts && e.now > t + w
    ensures Forgotten(Step(cfg, w, st, e.alert, e.now).last, Record(cfg, full, e.alert, e.now), key, h, i, n + 1, t)
  {
  }

  lemma ProbeKeysDiffer(rule: string)
    ensures BuildKey(ProbeAlert(rule, 0)) != BuildKey(ProbeAlert(rule, 1))
  {
    if BuildKey(ProbeAlert(rule, 0)) == BuildKey(ProbeAlert(rule, 1)) {
      TailFields(ProbeAlert(rule, 0), ProbeAlert(rule, 1));
    }
  }

  // ---------------------------------------------------------------- the rule it implements

  /** Alert i is the latest one before j that was sent under the key of alert j. */
  ghost predicate LastSent(cfg: Config, w: nat, events: seq<Event>, i: nat, j: nat)
    requires i < j <= |events|
  {
    j < |events| && SentAs(cfg, w, events, BuildKey(events[j].alert), i, j)
  }

  ghost predicate SentAs(cfg: Config, w: nat, events: seq<Event>, key: string, i: nat, j: nat)
    requires i < j <= |events|
  {
    && BuildKey(events[i].alert) == key
    && !Suppressed(cfg, w, events, i)
    && (forall m :: i < m < j && BuildKey(events[m].alert) == key ==> Suppressed(cfg, w, events, m))
  }

  /** The key was last sent, before event j, at time t. */
  ghost predicate LastSentAt(cfg: Config, w: nat, events: seq<Event>, key: string, j: nat, t: uint64)
    requires j <= |events|
  {
    exists i :: 0 <= i < j && SentAs(cfg, w, events, key, i, j) && events[i].now == t
  }

  lemma SentJustNow(cfg: Config, w: nat, events: seq<Event>, key: string, j: nat)
    requires 0 < j <= |events| && BuildKey(events[j - 1].alert) == key && !Suppressed(cfg, w, events, j - 1)
    ensures LastSentAt(cfg, w, events, key, j, events[j - 1].now)
  {
    assert SentAs(cfg, w, events, key, j - 1, j);
  }

  lemma StillLastSent(cfg: Config, w: nat, events: seq<Event>, key: string, j: nat, t: uint64)
    requires 0 < j <= |events| && LastSentAt(cfg, w, events, key, j - 1, t)
    requires BuildKey(events[j - 1].alert) != key || Suppressed(cfg, w, events, j - 1)
    ensures LastSentAt(cfg, w, events, key, j, t)
  {
    hide Suppressed, BuildKey;
    var i :| 0 <= i < j - 1 && SentAs(cfg, w, events, key, i, j - 1) && events[i].now == t;
    assert SentAs(cfg, w, events, key, i, j);
  }

  /** The unswept map holds exactly the last time each key was sent. */
  lemma {:induction false} RememberIsHistory(cfg: Config, w: nat, events: seq<Event>, key: string, j: nat)
    requires cfg.IsMaxWindow(w) && ClockSafe(cfg, w, Clock(events)) && j <= |events|
    ensures key in Remember(cfg, events[..j]) ==> LastSentAt(cfg, w, events, key, j, Remember(cfg, events[..j])[key])
    ensures key !in Remember(cfg, events[..j]) ==>
              forall i :: 0 <= i < j ==> BuildKey(events[i].alert) != key
    decreases j
  {
    if j > 0 {
      hide Suppressed, BuildKey, SentAs, LastSentAt, ClockSafe, Run;
      assert events[..j][..j - 1] == events[..j - 1];
      RememberIsHistory(cfg, w, events, key, j - 1);
      SweepingIsInvisible(cfg, w, events, j - 1);
      if BuildKey(events[j - 1].alert) == key && !Suppressed(cfg, w, events, j - 1) {
        SentJustNow(cfg, w, events, key, j);
      } else if key in Remember(cfg, events[..j]) {
        StillLastSent(cfg, w, events, key, j, Remember(cfg, events[..j])[key]);
      }
    }
  }

  lemma LastSentUnique(cfg: Config, w: nat, events: seq<Event>, key: string, i: nat, i': nat, j: nat)
    requires i < j <= |events| && i' < j
    requires SentAs(cfg, w, events, key, i, j) && SentAs(cfg, w, events, key, i', j)
    ensures i == i'
  {
  }

  /** The whole deduplicator in one line: an alert is suppressed exactly when the last alert
      sent under its key is less than its own window old. */
  lemma SuppressedIff(cfg: Config, w: nat, events: seq<Event>, j: nat)
    requires cfg.IsMaxWindow(w) && ClockSafe(cfg, w, Clock(events)) && j < |events|
    ensures Suppressed(cfg, w, events, j) <==>
            exists i :: 0 <= i < j && LastSent(cfg, w, events, i, j)
                && events[j].now < events[i].now + cfg.Window(events[j].alert)
  {
    var key := BuildKey(events[j].alert);
    RememberIsHistory(cfg, w, events, key, j);
    SweepingIsInvisible(cfg, w, events, j);
    if key in Remember(cfg, events[..j]) {
      var i :| 0 <= i < j && SentAs(cfg, w, events, key, i, j) && events[i].now == Remember(cfg, events[..j])[key];
      assert LastSent(cfg, w, events, i, j);
      forall i' | 0 <= i' < j && LastSent(cfg, w, events, i', j)
        ensures i' == i
      {
        LastSentUnique(cfg, w, events, key, i, i', j);
      }
    }
  }

  /** The same as the documentation puts it: on a safe clock an alert is dropped exactly when some
      alert with the same customer, rule type, chain and token was already sent within its
      window. */
  lemma SuppressedIffDocumented(cfg: Config, w: nat, events: seq<Event>, j: nat)
    requires cfg.IsMaxWindow(w) && ClockSafe(cfg, w, Clock(events)) && j < |events|
    requires forall i :: 0 <= i < |events| ==> NoBar(events[i].alert.ruleType)
    ensures Suppressed(cfg, w, events, j) <==>
            exists i :: 0 <= i < j && !Suppressed(cfg, w, events, i)
                        && Identity(events[i].alert) == Identity(events[j].alert)
                        && events[j].now < events[i].now + cfg.Window(events[j].alert)
  {
    SuppressedIff(cfg, w, events, j);
    hide Suppressed, BuildKey, Identity;
    forall i | 0 <= i < j
      ensures BuildKey(events[i].alert) == BuildKey(events[j].alert)
              <==> Identity(events[i].alert) == Identity(events[j].alert)
    {
      BarFreeKeys(events[i].alert, events[j].alert);
    }
    if i :| 0 <= i < j && !Suppressed(cfg, w, events, i) && Identity(events[i].alert) == Identity(events[j].alert)
            && events[j].now < events[i].now + cfg.Window(events[j].alert) {
      if !Suppressed(cfg, w, events, j) {
        SentFarApart(cfg, w, events, i, j);
      }
    }
  }

  /** The documented rule by itself, with no map and no keys: an alert is due unless one with the
      same customer, rule type, chain and token was due less than its window ago. */
  ghost predicate Due(cfg: Config, events: seq<Event>, i: nat)
    requires i < |events|
    decreases i
  {
    !exists j :: 0 <= j < i && Due(cfg, events, j) && Identity(events[j].alert) == Identity(events[i].alert)
                 && events[i].now < events[j].now + cfg.Window(events[i].alert)
  }

  /** The due alerts among the first n, in order. */
  ghost function DueAlerts(cfg: Config, events: seq<Event>, n: nat): seq<Alert>
    requires n <= |events|
  {
    if n == 0 then []
    else DueAlerts(cfg, events, n - 1) + if Due(cfg, events, n - 1) then [events[n - 1].alert] else []
  }

  lemma {:induction false} DueIsSent(cfg: Config, w: nat, events: seq<Event>, i: nat)
    requires cfg.IsMaxWindow(w) && ClockSafe(cfg, w, Clock(events)) && i < |events|
    requires forall i :: 0 <= i < |events| ==> NoBar(events[i].alert.ruleType)
    ensures Due(cfg, events, i) <==> !Suppressed(cfg, w, events, i)
    decreases i
  {
    hide Suppressed, Identity;
    SuppressedIffDocumented(cfg, w, events, i);
    forall j | 0 <= j < i
      ensures Due(cfg, events, j) <==> !Suppressed(cfg, w, events, j)
    {
      DueIsSent(cfg, w, events, j);
    }
  }

  /** Two alerts sent under one key are at least the later one's window apart. */
  lemma SentFarApart(cfg: Config, w: nat, events: seq<Event>, i: nat, j: nat)
    requires cfg.IsMaxWindow(w) && ClockSafe(cfg, w, Clock(events)) && i < j < |events|
    requires BuildKey(events[i].alert) == BuildKey(events[j].alert)
    requires !Suppressed(cfg, w, events, i) && !Suppressed(cfg, w, events, j)
    ensures events[j].now - events[i].now >= cfg.Window(events[j].alert)
    decreases j
  {
    var key := BuildKey(events[j].alert);
    RememberIsHistory(cfg, w, events, key, j);
    SuppressedIff(cfg, w, events, j);
    var m :| 0 <= m < j && SentAs(cfg, w, events, key, m, j) && events[m].now == Remember(cfg, events[..j])[key];
    assert LastSent(cfg, w, events, m, j);
    if i < m {
      SentFarApart(cfg, w, events, i, m);
    }
  }

  // ---------------------------------------------------------------- one stream on two clocks

  /** Alerts paired with the clock readings they get. */
  function Timed(alerts: seq<Alert>, clock: seq<uint64>): (e: seq<Event>)
    requires |alerts| == |clock|
    ensures |e| == |alerts|
  {
    seq(|alerts|, i requires 0 <= i < |alerts| => Event(alerts[i], clock[i]))
  }

  /** Some alert has this window. */
  predicate IsWindow(cfg: Config, window: uint64) {
    window == cfg.defaultWindowMs || window in cfg.perRuleWindowMs.Values
  }

  /** No two readings are within a window on one clock and at least a window apart on the other. */
  ghost predicate SameReach(cfg: Config, c: seq<uint64>, d: seq<uint64>)
    requires |c| == |d|
  {
    forall window: uint64, i: nat, j: nat :: IsWindow(cfg, window) && i < j < |c| ==>
      (Within(c, i, j, window) <==> Within(d, i, j, window))
  }

  predicate Within(clock: seq<uint64>, i: nat, j: nat, window: nat)
    requires i < |clock| && j < |clock|
  {
    clock[j] < clock[i] + window
  }

  /** On two clocks of the same reach the documented rule decides every alert alike. */
  lemma {:induction false} SameReachSameDue(cfg: Config, alerts: seq<Alert>, c: seq<uint64>, d: seq<uint64>, i: nat)
    requires |alerts| == |c| == |d| && i < |alerts| && SameReach(cfg, c, d)
    ensures Due(cfg, Timed(alerts, c), i) <==> Due(cfg, Timed(alerts, d), i)
    decreases i
  {
    hide Identity;
    forall j | 0 <= j < i
      ensures Due(cfg, Timed(alerts, c), j) <==> Due(cfg, Timed(alerts, d), j)
    {
      SameReachSameDue(cfg, alerts, c, d, j);
    }
    var window: nat := cfg.Window(alerts[i]);
    assert IsWindow(cfg, window);
    forall j | 0 <= j < i
      ensures c[i] < c[j] + window <==> d[i] < d[j] + window
    {
      assert Within(c, j, i, window) <==> Within(d, j, i, window);
    }
  }

  lemma {:induction false} SameReachSameAlerts(cfg: Config, alerts: seq<Alert>, c: seq<uint64>, d: seq<uint64>, n: nat)
    requires |alerts| == |c| == |d| && n <= |alerts| && SameReach(cfg, c, d)
    ensures DueAlerts(cfg, Timed(alerts, c), n) == DueAlerts(cfg, Timed(alerts, d), n)
    decreases n
  {
    if n > 0 {
      hide Due, SameReach;
      SameReachSameAlerts(cfg, alerts, c, d, n - 1);
      SameReachSameDue(cfg, alerts, c, d, n - 1);
    }
  }

  /** A stream of one rule type, stamped as given, in which only alerts i and j are the same to
      the deduplicator: every other one has a token of its own. */
  function Twins(rule: string, stamps: seq<uint64>, i: nat, j: nat): (alerts: seq<Alert>)
    ensures |alerts| == |stamps|
  {
    seq(|stamps|, m requires 0 <= m < |stamps| =>
      Alert(0, rule, "", stamps[m], None, if m == i || m == j then None else Some(Decimal(m)), None))
  }

  lemma TwinsOnly(rule: string, stamps: seq<uint64>, i: nat, j: nat, k: nat, m: nat)
    requires i < j < |stamps| && k < m < |stamps|
    ensures Identity(Twins(rule, stamps, i, j)[k]) == Identity(Twins(rule, stamps, i, j)[m]) <==> k == i && m == j
  {
    hide Decimal;
    if Decimal(k) == Decimal(m) {
      DecimalInjective(k, m);
    }
  }

  /** All of that stream is due, except the second twin when it is within the window of the first. */
  lemma TwinsDue(cfg: Config, rule: string, stamps: seq<uint64>, clock: seq<uint64>, i: nat, j: nat, m: nat)
    requires |stamps| == |clock| && i < j < |stamps| && m < |stamps|
    ensures var alerts := Twins(rule, stamps, i, j);
            Due(cfg, Timed(alerts, clock), m)
            <==> !(m == j && Within(clock, i, j, cfg.Window(alerts[j])))
  {
    hide Decimal, Identity;
    var events := Timed(Twins(rule, stamps, i, j), clock);
    forall k | 0 <= k < m
      ensures Identity(events[k].alert) == Identity(events[m].alert) <==> k == i && m == j
    {
      TwinsOnly(rule, stamps, i, j, k, m);
    }
    if m == j {
      forall k | 0 <= k < i
        ensures Identity(events[k].alert) != Identity(events[i].alert)
      {
        TwinsOnly(rule, stamps, i, j, k, i);
      }
      assert Due(cfg, events, i);
    }
  }

  /** The window an alert has: the one configured for its rule type, or else the default. Two
      alerts of one stream are kept apart by it and nothing else. */
  lemma WindowDecides(cfg: Config, rule: string, stamps: seq<uint64>, clock: seq<uint64>, i: nat, j: nat)
    requires |stamps| == |clock| && i < j < |stamps|
    ensures var window: nat := if rule in cfg.perRuleWindowMs then cfg.perRuleWindowMs[rule] else cfg.defaultWindowMs;
            Due(cfg, Timed(Twins(rule, stamps, i, j), clock), j) <==> clock[j] as int >= clock[i] as int + window
  {
    TwinsDue(cfg, rule, stamps, clock, i, j, j);
  }

  /** How many alerts are due when at most the j-th is not. */
  lemma {:induction false} DueCount(cfg: Config, events: seq<Event>, j: nat, n: nat)
    requires j < |events| && n <= |events|
    requires forall m :: 0 <= m < n && m != j ==> Due(cfg, events, m)
    ensures |DueAlerts(cfg, events, n)| == if j < n && !Due(cfg, events, j) then n - 1 else n
    decreases n
  {
    hide Due;
    if n > 0 {
      DueCount(cfg, events, j, n - 1);
    }
  }

  /** Two clocks that reach differently tell some stream apart: a pair of twins of a rule type
      with the window in question, whatever stamps the alerts carry. */
  lemma TwinsTellApart(
    cfg: Config, rule: string, window: uint64, stamps: seq<uint64>, c: seq<uint64>, d: seq<uint64>, i: nat, j: nat)
    requires |stamps| == |c| == |d| && i < j < |c|
    requires forall a: Alert :: a.ruleType == rule ==> cfg.Window(a) == window
    requires !(Within(c, i, j, window) <==> Within(d, i, j, window))
    ensures var alerts, n := Twins(rule, stamps, i, j), |stamps|;
            |DueAlerts(cfg, Timed(alerts, c), n)| != |DueAlerts(cfg, Timed(alerts, d), n)|
  {
    hide Due, DueAlerts;
    var alerts, n := Twins(rule, stamps, i, j), |stamps|;
    forall m | 0 <= m < n
      ensures Due(cfg, Timed(alerts, c), m) <==> !(m == j && Within(c, i, j, window))
      ensures Due(cfg, Timed(alerts, d), m) <==> !(m == j && Within(d, i, j, window))
    {
      TwinsDue(cfg, rule, stamps, c, i, j, m);
      TwinsDue(cfg, rule, stamps, d, i, j, m);
    }
    DueCount(cfg, Timed(alerts, c), j, n);
    DueCount(cfg, Timed(alerts, d), j, n);
  }

  ghost predicate AlikeOn(cfg: Config, c: seq<uint64>, d: seq<uint64>)
    requires |c| == |d|
  {
    forall alerts: seq<Alert> :: |alerts| == |c| ==>
      DueAlerts(cfg, Timed(alerts, c), |c|) == DueAlerts(cfg, Timed(alerts, d), |c|)
  }

  /** The documented rule keeps the same alerts of every stream on two clocks exactly when their
      readings are within the same windows of each other. Neither clock need be in order. */
  lemma AlikeIff(cfg: Config, c: seq<uint64>, d: seq<uint64>)
    requires |c| == |d|
    ensures AlikeOn(cfg, c, d) <==> SameReach(cfg, c, d)
  {
    hide DueAlerts;
    if SameReach(cfg, c, d) {
      forall alerts: seq<Alert> | |alerts| == |c|
        ensures DueAlerts(cfg, Timed(alerts, c), |c|) == DueAlerts(cfg, Timed(alerts, d), |c|)
      {
        SameReachSameAlerts(cfg, alerts, c, d, |c|);
      }
    } else {
      var window: uint64, i: nat, j: nat :| IsWindow(cfg, window) && i < j < |c|
          && !(Within(c, i, j, window) <==> Within(d, i, j, window));
      var rule := RuleOf(cfg, window);
      TwinsTellApart(cfg, rule, window, c, c, d, i, j);
      assert |Twins(rule, c, i, j)| == |c|;
    }
  }

  // ---------------------------------------------------------------- memory

  /** The keys of the alerts sent among events[lo..hi] at or after the given time. */
  function KeysSentSince(cfg: Config, w: nat, events: seq<Event>, lo: nat, hi: nat, horizon: int): set<string>
    requires lo <= hi <= |events|
  {
    set i | lo <= i < hi && !Suppressed(cfg, w, events, i) && events[i].now >= horizon :: BuildKey(events[i].alert)
  }

  /** A tracked entry always carries the time its key was sent at. */
  lemma {:induction false} TrackedWereSent(cfg: Config, w: nat, events: seq<Event>, n: nat, key: string)
    requires n <= |events| && key in Run(cfg, w, events[..n]).last
    ensures exists i :: 0 <= i < n && BuildKey(events[i].alert) == key && !Suppressed(cfg, w, events, i)
                        && events[i].now == Run(cfg, w, events[..n]).last[key]
  {
    var q, e := events[..n - 1], events[n - 1];
    assert events[..n][..n - 1] == q;
    if BuildKey(e.alert) == key && !Suppressed(cfg, w, events, n - 1) {
      assert events[n - 1].now == Run(cfg, w, events[..n]).last[key];
    } else {
      TrackedWereSent(cfg, w, events, n - 1, key);
    }
  }

  /** Right after a sweep only keys sent within the longest window are tracked. */
  lemma AfterSweep(cfg: Config, w: nat, events: seq<Event>, n: nat)
    requires 0 < n <= |events| && SweepsAfter(cfg, n - 1)
    ensures Run(cfg, w, events[..n]).last.Keys <= KeysSentSince(cfg, w, events, 0, n, events[n - 1].now - w)
  {
    hide Suppressed, BuildKey, Record;
    var last := Run(cfg, w, events[..n]).last;
    assert events[..n][..n - 1] == events[..n - 1];
    ProcessedCount(cfg, w, events[..n - 1]);
    forall key | key in last
      ensures key in KeysSentSince(cfg, w, events, 0, n, events[n - 1].now - w)
    {
      TrackedWereSent(cfg, w, events, n, key);
    }
  }

  lemma SubsetSize<T>(a: set<T>, b: set<T>)
    requires a <= b
    ensures |a| <= |b|
  {
    assert b == a + (b - a);
  }

  /** How many keys are tracked after the first n alerts. */
  function Tracked(cfg: Config, w: nat, events: seq<Event>, n: nat): nat
    requires n <= |events|
  {
    |Run(cfg, w, events[..n]).last|
  }

  lemma StepAddsOneKey(cfg: Config, w: nat, st: State, a: Alert, now: uint64)
    ensures |Step(cfg, w, st, a, now).last| <= |st.last| + 1
  {
    hide BuildKey, Suppresses;
    SubsetSize(Step(cfg, w, st, a, now).last.Keys, st.last.Keys + {BuildKey(a)});
  }

  lemma TrackedStep(cfg: Config, w: nat, events: seq<Event>, n: nat)
    requires 0 < n <= |events|
    ensures Tracked(cfg, w, events, n) <= Tracked(cfg, w, events, n - 1) + 1
  {
    hide Step;
    assert events[..n][..n - 1] == events[..n - 1];
    StepAddsOneKey(cfg, w, Run(cfg, w, events[..n - 1]), events[n - 1].alert, events[n - 1].now);
  }

  /** One alert adds at most one key. */
  lemma {:induction false} TrackedGrowth(cfg: Config, w: nat, events: seq<Event>, c: nat, n: nat)
    requires c <= n <= |events|
    ensures Tracked(cfg, w, events, n) <= Tracked(cfg, w, events, c) + (n - c)
    decreases n
  {
    hide Tracked;
    if c < n {
      TrackedGrowth(cfg, w, events, c, n - 1);
      TrackedStep(cfg, w, events, n);
    }
  }

  lemma {:induction false} LastSweep(cfg: Config, n: nat)
    ensures SinceSweep(cfg, n - SinceSweep(cfg, n)) == 0
  {
    if SinceSweep(cfg, n) > 0 {
      LastSweep(cfg, n - 1);
    }
  }

  /** The keys of the alerts the last sweep could have kept. */
  function KeptKeys(cfg: Config, w: nat, events: seq<Event>, c: nat): set<string>
    requires c <= |events|
  {
    if c == 0 then {} else KeysSentSince(cfg, w, events, 0, c, events[c - 1].now - w)
  }

  lemma KeptKeysBound(cfg: Config, w: nat, events: seq<Event>, c: nat)
    requires c <= |events| && SinceSweep(cfg, c) == 0
    ensures |Run(cfg, w, events[..c]).last| <= |KeptKeys(cfg, w, events, c)|
  {
    if c > 0 {
      AfterSweep(cfg, w, events, c);
      SubsetSize(Run(cfg, w, events[..c]).last.Keys, KeptKeys(cfg, w, events, c));
    } else {
      assert events[..0] == [];
    }
  }

  /** Memory: with c alerts processed up to the last sweep, the tracked keys never outnumber the
      keys sent among those within the longest window before that sweep by more than the alerts
      since, which are fewer than the sweep period. The clock is arbitrary. */
  lemma TrackedKeysBound(cfg: Config, w: nat, events: seq<Event>)
    ensures var c := |events| - SinceSweep(cfg, |events|);
            && |events| - c <= cfg.Period() - 1
            && |Run(cfg, w, events).last| <= |KeptKeys(cfg, w, events, c)| + (|events| - c)
  {
    hide Run, KeptKeys;
    var c := |events| - SinceSweep(cfg, |events|);
    assert events[..|events|] == events;
    TrackedGrowth(cfg, w, events, c, |events|);
    LastSweep(cfg, |events|);
    KeptKeysBound(cfg, w, events, c);
  }
}
