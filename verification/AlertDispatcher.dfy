/** The alert dispatcher (src/risk/alert_dispatcher.cpp): a queue, the deduplicator, and the
    channels every surviving alert is offered to. */
module AlertDispatcher {
  import opened Numbers
  import opened Signals
  import opened Deduplicator

  /** What a channel was sent, and how often it threw. */
  datatype Channel = Channel(received: seq<Alert>, sent: nat, failed: nat)

  function Offer(ch: Channel, a: Alert, works: bool): Channel {
    if works then Channel(ch.received + [a], ch.sent + 1, ch.failed) else ch.(failed := ch.failed + 1)
  }

  function OfferAll(channels: seq<Channel>, a: Alert, works: seq<bool>): (r: seq<Channel>)
    requires |works| == |channels|
    ensures |r| == |channels|
  {
    seq(|channels|, c requires 0 <= c < |channels| => Offer(channels[c], a, works[c]))
  }

  /** The exported counters: alerts dropped per rule type, and per channel name the sends that
      returned and those that threw. A name without an entry is not counted. */
  datatype Counters = Counters(dropped: map<string, nat>, sent: map<string, nat>, failed: map<string, nat>)

  function Bump(m: map<string, nat>, name: string): map<string, nat> {
    if name in m then m[name := m[name] + 1] else m
  }

  /** One round of the fan-out loop: the counters of the channel's name. */
  function CountSend(m: Counters, name: string, works: bool): Counters {
    if works then m.(sent := Bump(m.sent, name)) else m.(failed := Bump(m.failed, name))
  }

  function CountSends(m: Counters, names: seq<string>, works: seq<bool>): Counters
    requires |works| == |names|
  {
    if names == [] then m
    else
      var n := |names| - 1;
      CountSend(CountSends(m, names[..n], works[..n]), names[n], works[n])
  }

  function CountAlert(m: Counters, names: seq<string>, a: Alert, suppressed: bool, works: seq<bool>): Counters
    requires |works| == |names|
  {
    if suppressed then m.(dropped := Bump(m.dropped, a.ruleType)) else CountSends(m, names, works)
  }

  /** One alert taken from the queue, the clock reading it got, and which channels worked. */
  datatype Handled = Handled(event: Event, works: seq<bool>)

  function Events(handled: seq<Handled>): (e: seq<Event>)
    ensures |e| == |handled|
  {
    seq(|handled|, i requires 0 <= i < |handled| => handled[i].event)
  }

  function Alerts(handled: seq<Handled>): (a: seq<Alert>)
    ensures |a| == |handled|
  {
    seq(|handled|, i requires 0 <= i < |handled| => handled[i].event.alert)
  }

  /** The alerts of a run that the deduplicator lets through, in order. */
  function Surviving(cfg: Config, w: nat, events: seq<Event>): seq<Alert> {
    if events == [] then []
    else
      var n := |events| - 1;
      Surviving(cfg, w, events[..n]) +
      if Suppresses(cfg, Run(cfg, w, events[..n]).last, events[n].alert, events[n].now) then [] else [events[n].alert]
  }

  /** The part of the dispatcher its own thread works on. */
  datatype Desk = Desk(dedup: State, suppressed: nat, channels: seq<Channel>)

  function HandleAlert(cfg: Config, w: nat, desk: Desk, a: Alert, now: uint64, works: seq<bool>): (r: Desk)
    requires |works| == |desk.channels|
    ensures |r.channels| == |desk.channels|
  {
    var dedup := Step(cfg, w, desk.dedup, a, now);
    if Suppresses(cfg, desk.dedup.last, a, now) then Desk(dedup, desk.suppressed + 1, desk.channels)
    else Desk(dedup, desk.suppressed, OfferAll(desk.channels, a, works))
  }

  /** What one trip round the loop did. */
  datatype Trip = Left | Idled | Took(alert: Alert)

  class Dispatcher {
    var queue: seq<Alert>
    var running: bool
    const deduplicator: AlertDeduplicator
    var suppressed: nat
    const names: seq<string>
    var channels: seq<Channel>
    var counters: Counters

    predicate Valid()
      reads this, deduplicator
    {
      deduplicator.Valid() && |channels| == |names|
    }

    function Abstract(): Desk
      reads this, deduplicator
    {
      Desk(deduplicator.Abstract(), suppressed, channels)
    }

    /** With metrics the given rule types and every channel name are counted, without none is. */
    constructor (cfg: Config, names: seq<string>, ruleTypes: set<string>, metrics: bool)
      ensures Valid() && fresh(deduplicator) && deduplicator.cfg == cfg && this.names == names
      ensures queue == [] && !running && Abstract() == Desk(State(map[], 0), 0, Idle(|names|))
      ensures counters == if metrics then NoneYet(names, ruleTypes) else Counters(map[], map[], map[])
    {
      deduplicator := new AlertDeduplicator(cfg);
      queue, running, suppressed := [], false, 0;
      this.names := names;
      channels := Idle(|names|);
      counters := if metrics then NoneYet(names, ruleTypes) else Counters(map[], map[], map[]);
    }

    /** The first thing the thread does. */
    method Start()
      modifies this`running
      ensures running
    {
      running := true;
    }

    method Dispatch(alert: Alert)
      modifies this`queue
      ensures queue == old(queue) + [alert]
    {
      queue := queue + [alert];
    }

    method Stop()
      modifies this`running
      ensures !running
    {
      running := false;
    }

    /** One trip round the loop: leave, wait, or take the oldest alert and deal with it. */
    method LoopOnce(now: uint64, works: seq<bool>) returns (trip: Trip)
      requires Valid() && |works| == |channels|
      modifies this`queue, this`suppressed, this`channels, this`counters, deduplicator
      ensures Valid() && deduplicator.maxConfiguredWindowMs == old(deduplicator.maxConfiguredWindowMs)
      ensures old(queue) == []
              ==> trip == (if running then Idled else Left) && queue == [] && Abstract() == old(Abstract())
      ensures old(queue) != [] ==>
                && trip == Took(old(queue)[0]) && queue == old(queue)[1..]
                && Abstract() == HandleAlert(deduplicator.cfg, deduplicator.maxConfiguredWindowMs, old(Abstract()),
                                             old(queue)[0], now, works)
                && var suppress := Suppresses(deduplicator.cfg, old(deduplicator.lastFiredMs), old(queue)[0], now);
                counters == CountAlert(old(counters), names, old(queue)[0], suppress, works)
      ensures old(queue) == [] ==> counters == old(counters)
    {
      var isShutdown := !running;
      if queue == [] && isShutdown {
        return Left;
      }
      if queue == [] {
        return Idled;
      }
      var alert := queue[0];
      queue := queue[1..];
      var suppress := deduplicator.ShouldSuppress(alert, now);
      if suppress {
        suppressed := suppressed + 1;
        counters := counters.(dropped := Bump(counters.dropped, alert.ruleType));
        return Took(alert);
      }
      FanOut(alert, works);
      return Took(alert);
    }

    /** Offers the alert to each channel in turn; a channel that throws does not stop the rest. */
    method FanOut(alert: Alert, works: seq<bool>)
      requires |works| == |channels| == |names|
      modifies this`channels, this`counters
      ensures channels == OfferAll(old(channels), alert, works)
      ensures counters == CountSends(old(counters), names, works)
    {
      for c := 0 to |channels|
        invariant |channels| == |works|
        invariant forall j :: 0 <= j < c ==> channels[j] == Offer(old(channels)[j], alert, works[j])
        invariant forall j :: c <= j < |channels| ==> channels[j] == old(channels)[j]
        invariant counters == CountSends(old(counters), names[..c], works[..c])
      {
        var ch := channels[c];
        assert names[..c + 1][..c] == names[..c] && works[..c + 1][..c] == works[..c];
        if works[c] {
          channels := channels[c := Channel(ch.received + [alert], ch.sent + 1, ch.failed)];
          counters := counters.(sent := Bump(counters.sent, names[c]));
        } else {
          channels := channels[c := Channel(ch.received, ch.sent, ch.failed + 1)];
          counters := counters.(failed := Bump(counters.failed, names[c]));
        }
      }
      assert names[..|names|] == names && works[..|names|] == works;
    }
  }

  function Idle(channelCount: nat): (c: seq<Channel>)
    ensures |c| == channelCount
  {
    seq(channelCount, _ => Channel([], 0, 0))
  }

  function NoneYet(names: seq<string>, ruleTypes: set<string>): Counters {
    var zero := map name | name in names :: 0;
    Counters(map r | r in ruleTypes :: 0, zero, zero)
  }

  // ---------------------------------------------------------------- books over whole runs

  /** The desk after a run, from an idle start. */
  function DeskAfter(cfg: Config, w: nat, channelCount: nat, handled: seq<Handled>): (d: Desk)
    requires forall i :: 0 <= i < |handled| ==> |handled[i].works| == channelCount
    ensures |d.channels| == channelCount
  {
    if handled == [] then Desk(State(map[], 0), 0, Idle(channelCount))
    else
      var n := |handled| - 1;
      HandleAlert(cfg, w, DeskAfter(cfg, w, channelCount, handled[..n]), handled[n].event.alert, handled[n].event.now,
                  handled[n].works)
  }

  /** Conservation: every handled alert was suppressed or offered to all channels, and each
      channel accounts for every offer as sent or failed, whatever the others did. */
  lemma {:induction false} BooksBalance(cfg: Config, w: nat, channelCount: nat, handled: seq<Handled>)
    requires forall i :: 0 <= i < |handled| ==> |handled[i].works| == channelCount
    ensures var d, offered := DeskAfter(cfg, w, channelCount, handled), Surviving(cfg, w, Events(handled));
            && d.dedup == Run(cfg, w, Events(handled))
            && d.suppressed + |offered| == |handled|
            && (forall c :: 0 <= c < channelCount ==> d.channels[c].sent + d.channels[c].failed == |offered|)
            && (forall c :: 0 <= c < channelCount ==> |d.channels[c].received| == d.channels[c].sent)
  {
    hide Step, Suppresses;
    if handled != [] {
      var n := |handled| - 1;
      BooksBalance(cfg, w, channelCount, handled[..n]);
      assert Events(handled)[..n] == Events(handled[..n]);
    }
  }

  /** The counters after a run. */
  function CountersAfter(cfg: Config, w: nat, names: seq<string>, start: Counters, handled: seq<Handled>): Counters
    requires forall i :: 0 <= i < |handled| ==> |handled[i].works| == |names|
  {
    if handled == [] then start
    else
      var n := |handled| - 1;
      CountAlert(CountersAfter(cfg, w, names, start, handled[..n]), names, handled[n].event.alert,
                 Suppressed(cfg, w, Events(handled), n), handled[n].works)
  }

  /** How many of the alerts of one rule type a run suppressed. */
  function Dropped(cfg: Config, w: nat, events: seq<Event>, ruleType: string): nat {
    if events == [] then 0
    else
      var n := |events| - 1;
      Dropped(cfg, w, events[..n], ruleType) +
      if Suppressed(cfg, w, events, n) && events[n].alert.ruleType == ruleType then 1 else 0
  }

  /** How many of the alerts are of one rule type. */
  function OfType(alerts: seq<Alert>, ruleType: string): nat {
    if alerts == [] then 0
    else
      var n := |alerts| - 1;
      OfType(alerts[..n], ruleType) + if alerts[n].ruleType == ruleType then 1 else 0
  }

  function AlertsOf(events: seq<Event>): (a: seq<Alert>)
    ensures |a| == |events|
  {
    seq(|events|, i requires 0 <= i < |events| => events[i].alert)
  }

  /** Of each rule type, what was not let through is what was dropped. */
  lemma {:induction false} DroppedRest(cfg: Config, w: nat, events: seq<Event>, ruleType: string)
    ensures Dropped(cfg, w, events, ruleType) + OfType(Surviving(cfg, w, events), ruleType)
            == OfType(AlertsOf(events), ruleType)
  {
    hide Suppresses, Run;
    if events != [] {
      var n := |events| - 1;
      DroppedRest(cfg, w, events[..n], ruleType);
      assert AlertsOf(events)[..n] == AlertsOf(events[..n]);
      var before := Surviving(cfg, w, events[..n]);
      assert (before + [events[n].alert])[..|before|] == before && before + [] == before;
    }
  }

  /** With metrics each counted rule type exports, of its handled alerts, those not let through. */
  lemma DroppedCounters(
    cfg: Config, w: nat, names: seq<string>, ruleTypes: set<string>, handled: seq<Handled>, ruleType: string)
    requires forall i :: 0 <= i < |handled| ==> |handled[i].works| == |names|
    requires ruleType in ruleTypes
    ensures var m := CountersAfter(cfg, w, names, NoneYet(names, ruleTypes), handled);
            && ruleType in m.dropped
            && m.dropped[ruleType]
               == OfType(Alerts(handled), ruleType) - OfType(Surviving(cfg, w, Events(handled)), ruleType)
  {
    hide Surviving, OfType;
    DroppedCount(cfg, w, names, NoneYet(names, ruleTypes), handled, ruleType);
    DroppedRest(cfg, w, Events(handled), ruleType);
    assert AlertsOf(Events(handled)) == Alerts(handled);
  }

  lemma {:induction false} DroppedCount(
    cfg: Config, w: nat, names: seq<string>, start: Counters, handled: seq<Handled>, ruleType: string)
    requires forall i :: 0 <= i < |handled| ==> |handled[i].works| == |names|
    requires ruleType in start.dropped
    ensures var m := CountersAfter(cfg, w, names, start, handled);
            && ruleType in m.dropped
            && m.dropped[ruleType] == start.dropped[ruleType] + Dropped(cfg, w, Events(handled), ruleType)
  {
    hide Suppresses, Run, CountSends;
    if handled != [] {
      var n := |handled| - 1;
      DroppedCount(cfg, w, names, start, handled[..n], ruleType);
      assert Events(handled)[..n] == Events(handled[..n]);
      SendsDropNothing(CountersAfter(cfg, w, names, start, handled[..n]), names, handled[n].works);
    }
  }

  lemma {:induction false} SendsDropNothing(m: Counters, names: seq<string>, works: seq<bool>)
    requires |works| == |names|
    ensures CountSends(m, names, works).dropped == m.dropped
  {
    if names != [] {
      SendsDropNothing(m, names[..|names| - 1], works[..|names| - 1]);
    }
  }

  function Named(names: seq<string>, name: string): nat {
    if names == [] then 0
    else Named(names[..|names| - 1], name) + if names[|names| - 1] == name then 1 else 0
  }

  lemma {:induction false} SendsCounted(m: Counters, names: seq<string>, works: seq<bool>, name: string)
    requires |works| == |names| && name in m.sent && name in m.failed
    ensures var r := CountSends(m, names, works);
            && r.dropped == m.dropped && name in r.sent && name in r.failed
            && r.sent[name] + r.failed[name] == m.sent[name] + m.failed[name] + Named(names, name)
  {
    if names != [] {
      SendsCounted(m, names[..|names| - 1], works[..|names| - 1], name);
    }
  }

  /** The exported counters: under each counted channel name the sends and failures add up to the
      offered alerts, once for every channel of that name; under each counted rule type stand the
      alerts of that type that were suppressed. */
  lemma {:induction false} CountersBalance(
    cfg: Config, w: nat, names: seq<string>, start: Counters, handled: seq<Handled>, name: string, ruleType: string)
    requires forall i :: 0 <= i < |handled| ==> |handled[i].works| == |names|
    requires name in start.sent && name in start.failed && ruleType in start.dropped
    ensures var m, events := CountersAfter(cfg, w, names, start, handled), Events(handled);
            && name in m.sent && name in m.failed && ruleType in m.dropped
            && m.sent[name] + m.failed[name]
               == start.sent[name] + start.failed[name] + Named(names, name) * |Surviving(cfg, w, events)|
            && m.dropped[ruleType] == start.dropped[ruleType] + Dropped(cfg, w, events, ruleType)
  {
    hide Suppresses, Run, CountSends, Named;
    if handled != [] {
      var n := |handled| - 1;
      CountersBalance(cfg, w, names, start, handled[..n], name, ruleType);
      assert Events(handled)[..n] == Events(handled[..n]);
      SendsCounted(CountersAfter(cfg, w, names, start, handled[..n]), names, handled[n].works, name);
      OneMoreTime(Named(names, name), |Surviving(cfg, w, Events(handled[..n]))|);
    }
  }

  lemma OneMoreTime(k: nat, n: nat)
    ensures k * (n + 1) == k * n + k
  {
  }

  /** The sends of all channels of one name that returned, and those that threw. */
  function SentUnder(names: seq<string>, channels: seq<Channel>, name: string): nat
    requires |names| == |channels|
  {
    if names == [] then 0
    else
      var n := |names| - 1;
      SentUnder(names[..n], channels[..n], name) + if names[n] == name then channels[n].sent else 0
  }

  function FailedUnder(names: seq<string>, channels: seq<Channel>, name: string): nat
    requires |names| == |channels|
  {
    if names == [] then 0
    else
      var n := |names| - 1;
      FailedUnder(names[..n], channels[..n], name) + if names[n] == name then channels[n].failed else 0
  }

  /** One fan-out moves both counters of a name as much as its channels' own books. */
  lemma {:induction false} FanOutCounted(
    m: Counters, names: seq<string>, channels: seq<Channel>, a: Alert, works: seq<bool>, name: string)
    requires |names| == |channels| == |works|
    requires name in m.sent && name in m.failed
    ensures var r, after := CountSends(m, names, works), OfferAll(channels, a, works);
            && name in r.sent && name in r.failed
            && r.sent[name] + SentUnder(names, channels, name) == m.sent[name] + SentUnder(names, after, name)
            && r.failed[name] + FailedUnder(names, channels, name) == m.failed[name] + FailedUnder(names, after, name)
  {
    if names != [] {
      var n := |names| - 1;
      FanOutCounted(m, names[..n], channels[..n], a, works[..n], name);
      assert OfferAll(channels, a, works)[..n] == OfferAll(channels[..n], a, works[..n]);
    }
  }

  lemma {:induction false} NothingUnder(names: seq<string>, name: string)
    ensures SentUnder(names, Idle(|names|), name) == 0 && FailedUnder(names, Idle(|names|), name) == 0
  {
    if names != [] {
      var n := |names| - 1;
      NothingUnder(names[..n], name);
      assert Idle(|names|)[..n] == Idle(n);
    }
  }

  /** Each counter by itself: over a run a name's sent counter grows by the sends of its channels
      that returned, its failed counter by those that threw. */
  lemma {:induction false} CountersFollowBooks(
    cfg: Config, w: nat, names: seq<string>, start: Counters, handled: seq<Handled>, name: string)
    requires forall i :: 0 <= i < |handled| ==> |handled[i].works| == |names|
    requires name in start.sent && name in start.failed
    ensures var m, d := CountersAfter(cfg, w, names, start, handled), DeskAfter(cfg, w, |names|, handled);
            && name in m.sent && name in m.failed
            && m.sent[name] == start.sent[name] + SentUnder(names, d.channels, name)
            && m.failed[name] == start.failed[name] + FailedUnder(names, d.channels, name)
    decreases |handled|
  {
    hide Step, Suppresses, Run, CountSends, OfferAll, SentUnder, FailedUnder;
    if handled == [] {
      NothingUnder(names, name);
    } else {
      var n := |handled| - 1;
      var q, h := handled[..n], handled[n];
      CountersFollowBooks(cfg, w, names, start, q, name);
      BooksBalance(cfg, w, |names|, q);
      assert Events(handled)[..n] == Events(q);
      var d := DeskAfter(cfg, w, |names|, q);
      FanOutCounted(CountersAfter(cfg, w, names, start, q), names, d.channels, h.event.alert, h.works, name);
    }
  }

  /** A channel that never throws never counts a failure and counts every surviving alert as sent. */
  lemma {:induction false} FaithfulBooks(cfg: Config, w: nat, channelCount: nat, handled: seq<Handled>, c: nat)
    requires forall i :: 0 <= i < |handled| ==> |handled[i].works| == channelCount
    requires c < channelCount && forall i :: 0 <= i < |handled| ==> handled[i].works[c]
    ensures DeskAfter(cfg, w, channelCount, handled).channels[c].failed == 0
    ensures DeskAfter(cfg, w, channelCount, handled).channels[c].sent == |Surviving(cfg, w, Events(handled))|
  {
    FaithfulChannel(cfg, w, channelCount, handled, c);
    BooksBalance(cfg, w, channelCount, handled);
  }

  lemma {:induction false} OwnName(names: seq<string>, channels: seq<Channel>, c: nat)
    requires |names| == |channels| && c < |names| && forall i, j :: 0 <= i < j < |names| ==> names[i] != names[j]
    ensures SentUnder(names, channels, names[c]) == channels[c].sent
    ensures FailedUnder(names, channels, names[c]) == channels[c].failed
  {
    var n := |names| - 1;
    if c < n {
      OwnName(names[..n], channels[..n], c);
    } else {
      ForeignName(names[..n], channels[..n], names[n]);
    }
  }

  lemma {:induction false} ForeignName(names: seq<string>, channels: seq<Channel>, name: string)
    requires |names| == |channels| && name !in names
    ensures SentUnder(names, channels, name) == 0 && FailedUnder(names, channels, name) == 0
  {
    if names != [] {
      var n := |names| - 1;
      ForeignName(names[..n], channels[..n], name);
    }
  }

  /** With metrics and names of their own, a channel that never throws exports the number of
      surviving alerts as sent and none as failed. */
  lemma FaithfulCounters(
    cfg: Config, w: nat, names: seq<string>, ruleTypes: set<string>, handled: seq<Handled>, c: nat)
    requires forall i :: 0 <= i < |handled| ==> |handled[i].works| == |names|
    requires c < |names| && forall i :: 0 <= i < |handled| ==> handled[i].works[c]
    requires forall i, j :: 0 <= i < j < |names| ==> names[i] != names[j]
    ensures var m := CountersAfter(cfg, w, names, NoneYet(names, ruleTypes), handled);
            && names[c] in m.sent && m.sent[names[c]] == |Surviving(cfg, w, Events(handled))|
            && names[c] in m.failed && m.failed[names[c]] == 0
  {
    hide CountersAfter;
    CountersFollowBooks(cfg, w, names, NoneYet(names, ruleTypes), handled, names[c]);
    OwnName(names, DeskAfter(cfg, w, |names|, handled).channels, c);
    FaithfulBooks(cfg, w, |names|, handled, c);
  }

  /** Channels with names of their own are counted apart. */
  lemma {:induction false} NamedOnce(names: seq<string>, c: nat)
    requires c < |names| && forall i, j :: 0 <= i < j < |names| ==> names[i] != names[j]
    ensures Named(names, names[c]) == 1
  {
    var n := |names| - 1;
    if c < n {
      NamedOnce(names[..n], c);
    } else {
      NotNamed(names[..n], names[n]);
    }
  }

  lemma {:induction false} NotNamed(names: seq<string>, name: string)
    requires name !in names
    ensures Named(names, name) == 0
  {
    if names != [] {
      NotNamed(names[..|names| - 1], name);
    }
  }

  /** A channel that never throws receives exactly the surviving alerts, in order. */
  lemma {:induction false} FaithfulChannel(cfg: Config, w: nat, channelCount: nat, handled: seq<Handled>, c: nat)
    requires forall i :: 0 <= i < |handled| ==> |handled[i].works| == channelCount
    requires c < channelCount && forall i :: 0 <= i < |handled| ==> handled[i].works[c]
    ensures DeskAfter(cfg, w, channelCount, handled).channels[c].received == Surviving(cfg, w, Events(handled))
  {
    hide Step, Suppresses, Run;
    if handled != [] {
      var n := |handled| - 1;
      FaithfulChannel(cfg, w, channelCount, handled[..n], c);
      BooksBalance(cfg, w, channelCount, handled[..n]);
      assert Events(handled)[..n] == Events(handled[..n]);
    }
  }

  /** On a safe clock the survivors are the alerts due by the documented rule. */
  lemma {:induction false} SurvivingIsDue(cfg: Config, w: nat, events: seq<Event>, n: nat)
    requires cfg.IsMaxWindow(w) && ClockSafe(cfg, w, Clock(events)) && n <= |events|
    requires forall i :: 0 <= i < |events| ==> NoBar(events[i].alert.ruleType)
    ensures Surviving(cfg, w, events[..n]) == DueAlerts(cfg, events, n)
    decreases n
  {
    hide Suppresses, Run, Due;
    if n > 0 {
      SurvivingIsDue(cfg, w, events, n - 1);
      assert events[..n][..n - 1] == events[..n - 1];
      DueIsSent(cfg, w, events, n - 1);
    }
  }
}
