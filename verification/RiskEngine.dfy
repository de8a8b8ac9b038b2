/** The rule engine (src/risk/risk_engine.cpp): a table from signal types to rules, and the
    processing of one signal. */
module RiskEngine {
  import opened Signals
  import LargeTransferRule
  import BridgeTransferRule
  import MintBurnRule
  import OracleRule

  /** A registered rule with whatever it remembers. Stateless stands for the rules that are not
      modelled one by one: any interests, any pure evaluation. */
  datatype Rule =
    | LargeTransfer(transfers: seq<LargeTransferRule.RuleConfig>)
    | BridgeTransfer(bridges: BridgeTransferRule.Configs)
    | MintBurns(contracts: MintBurnRule.Configs)
    | Oracle(feeds: OracleRule.Configs, last: OracleRule.Memory)
    | Stateless(mask: bv32, evaluation: Signal -> seq<Alert>)

  function MakeMask(t: SignalType): bv32 {
    (1 as bv32) << TypeIndex(t)
  }

  function Interests(r: Rule): bv32 {
    match r
    case LargeTransfer(_) => MakeMask(Transfer)
    case BridgeTransfer(_) => MakeMask(Transfer)
    case MintBurns(_) => MakeMask(SignalType.MintBurn)
    case Oracle(_, _) => MakeMask(OracleUpdate)
    case Stateless(mask, _) => mask
  }

  /** interests & (1 << i) */
  predicate Wants(r: Rule, i: nat)
    requires i < SIGNAL_TYPE_COUNT
  {
    Interests(r) & ((1 as bv32) << i) != 0
  }

  /** The virtual call: what a rule does with a signal, and what it remembers afterwards. */
  function Evaluate(r: Rule, s: Signal): (Rule, seq<Alert>) {
    match r
    case LargeTransfer(configs) => (r, LargeTransferRule.AlertsFor(configs, s))
    case BridgeTransfer(configs) => (r, BridgeTransferRule.AlertsFor(configs, s))
    case MintBurns(configs) => (r, MintBurnRule.AlertsFor(configs, s))
    case Oracle(feeds, last) =>
      (Oracle(feeds, OracleRule.NextMemory(feeds, last, s)), OracleRule.AlertsFor(feeds, last, s))
    case Stateless(_, evaluation) => (r, evaluation(s))
  }

  /** Every rule of the program asks for exactly one signal type. */
  lemma OneInterest(t: SignalType, i: nat)
    requires i < SIGNAL_TYPE_COUNT
    ensures MakeMask(t) & ((1 as bv32) << i) != 0 <==> i == TypeIndex(t)
  {
    var k := TypeIndex(t);
    ShiftsMeet(k, i);
  }

  lemma ShiftsMeet(k: nat, i: nat)
    requires k < 11 && i < 11
    ensures ((1 as bv32) << k) & ((1 as bv32) << i) != 0 <==> i == k
  {
    assert (1 as bv32) << 0 == 1 && (1 as bv32) << 1 == 2 && (1 as bv32) << 2 == 4 && (1 as bv32) << 3 == 8;
    assert (1 as bv32) << 4 == 16 && (1 as bv32) << 5 == 32 && (1 as bv32) << 6 == 64 && (1 as bv32) << 7 == 128;
    assert (1 as bv32) << 8 == 256 && (1 as bv32) << 9 == 512 && (1 as bv32) << 10 == 1024;
  }

  /** The table row of a signal type: the indices of the interested rules among the first n, in
      registration order. */
  function Routed(rules: seq<Rule>, n: nat, i: nat): seq<nat>
    requires n <= |rules| && i < SIGNAL_TYPE_COUNT
  {
    if n == 0 then []
    else Routed(rules, n - 1, i) + if Wants(rules[n - 1], i) then [n - 1] else []
  }

  lemma {:induction false} RoutedIffWants(rules: seq<Rule>, n: nat, i: nat)
    requires n <= |rules| && i < SIGNAL_TYPE_COUNT
    ensures forall k :: k in Routed(rules, n, i) <==> 0 <= k < n && Wants(rules[k], i)
    ensures forall a, b :: 0 <= a < b < |Routed(rules, n, i)| ==> Routed(rules, n, i)[a] < Routed(rules, n, i)[b]
  {
    if n > 0 {
      RoutedIffWants(rules, n - 1, i);
      var before := Routed(rules, n - 1, i);
      assert forall a :: 0 <= a < |before| ==> before[a] in before;
    }
  }

  lemma {:induction false} RoutedPrefix(rules: seq<Rule>, more: seq<Rule>, n: nat, i: nat)
    requires n <= |rules| && i < SIGNAL_TYPE_COUNT
    ensures Routed(rules + more, n, i) == Routed(rules, n, i)
  {
    if n > 0 {
      RoutedPrefix(rules, more, n - 1, i);
    }
  }

  /** Evaluating the rules of a row one after the other. */
  function EvaluateRow(rules: seq<Rule>, row: seq<nat>, s: Signal): (r: (seq<Rule>, seq<Alert>))
    requires forall j :: 0 <= j < |row| ==> row[j] < |rules|
    ensures |r.0| == |rules|
  {
    if row == [] then (rules, [])
    else
      var k := row[|row| - 1];
      var (after, alerts) := EvaluateRow(rules, row[..|row| - 1], s);
      var (rule, more) := Evaluate(after[k], s);
      (after[k := rule], alerts + more)
  }

  /** Showing the signal to every rule in turn, interested ones answering. */
  function Scan(rules: seq<Rule>, s: Signal): (r: (seq<Rule>, seq<Alert>))
    ensures |r.0| == |rules|
  {
    if rules == [] then ([], [])
    else
      var n := |rules| - 1;
      var (before, alerts) := Scan(rules[..n], s);
      if Wants(rules[n], TypeIndex(s.kind)) then
        var (rule, more) := Evaluate(rules[n], s);
        (before + [rule], alerts + more)
      else (before + [rules[n]], alerts)
  }

  lemma {:induction false} RowIsScanOfPrefix(rules: seq<Rule>, n: nat, s: Signal)
    requires n <= |rules|
    ensures var row := Routed(rules, n, TypeIndex(s.kind)); forall j :: 0 <= j < |row| ==> row[j] < n
    ensures EvaluateRow(rules, Routed(rules, n, TypeIndex(s.kind)), s).0 == Scan(rules[..n], s).0 + rules[n..]
    ensures EvaluateRow(rules, Routed(rules, n, TypeIndex(s.kind)), s).1 == Scan(rules[..n], s).1
  {
    hide Evaluate, Wants;
    if n > 0 {
      var i := TypeIndex(s.kind);
      RowIsScanOfPrefix(rules, n - 1, s);
      assert rules[..n][..n - 1] == rules[..n - 1];
      var row := Routed(rules, n - 1, i);
      var before := Scan(rules[..n - 1], s).0;
      SplitRest(before, rules, n);
      if Wants(rules[n - 1], i) {
        assert Routed(rules, n, i)[..|row|] == row;
        ReplaceNext(before, rules, n, Evaluate(rules[n - 1], s).0);
      } else {
        assert Routed(rules, n, i) == row;
      }
    }
  }

  lemma SplitRest(before: seq<Rule>, rules: seq<Rule>, n: nat)
    requires 0 < n <= |rules| && |before| == n - 1
    ensures before + rules[n - 1..] == before + [rules[n - 1]] + rules[n..]
    ensures (before + rules[n - 1..])[n - 1] == rules[n - 1]
  {
  }

  lemma ReplaceNext(before: seq<Rule>, rules: seq<Rule>, n: nat, rule: Rule)
    requires 0 < n <= |rules| && |before| == n - 1
    ensures (before + rules[n - 1..])[n - 1 := rule] == before + [rule] + rules[n..]
  {
  }

  /** The engine's use of its table is the plain scan over all registered rules. */
  lemma RoutingRefinesScan(rules: seq<Rule>, s: Signal)
    ensures var row := Routed(rules, |rules|, TypeIndex(s.kind)); forall j :: 0 <= j < |row| ==> row[j] < |rules|
    ensures EvaluateRow(rules, Routed(rules, |rules|, TypeIndex(s.kind)), s) == Scan(rules, s)
  {
    RowIsScanOfPrefix(rules, |rules|, s);
    assert rules[..|rules|] == rules && Scan(rules, s).0 + rules[|rules|..] == Scan(rules, s).0;
  }

  class Engine {
    var rules: seq<Rule>
    var routingTable: seq<seq<nat>>

    /** Row i lists the rules with bit i, in registration order. */
    predicate Valid()
      reads this
    {
      && |routingTable| == SIGNAL_TYPE_COUNT
      && forall i :: 0 <= i < SIGNAL_TYPE_COUNT ==> routingTable[i] == Routed(rules, |rules|, i)
    }

    constructor ()
      ensures Valid() && rules == []
    {
      rules := [];
      routingTable := seq(SIGNAL_TYPE_COUNT, _ => []);
    }

    method RegisterRule(rule: Rule)
      requires Valid()
      modifies this
      ensures Valid() && rules == old(rules) + [rule]
    {
      hide Wants;
      var id := |rules|;
      ghost var before := rules;
      rules := rules + [rule];
      for i := 0 to SIGNAL_TYPE_COUNT
        invariant rules == before + [rule] && |routingTable| == SIGNAL_TYPE_COUNT
        invariant forall j :: 0 <= j < i ==> routingTable[j] == Routed(rules, |rules|, j)
        invariant forall j :: i <= j < SIGNAL_TYPE_COUNT ==> routingTable[j] == Routed(before, |before|, j)
      {
        RoutedPrefix(before, [rule], id, i);
        if Wants(rule, i) {
          routingTable := routingTable[i := routingTable[i] + [id]];
        }
      }
    }

    /** Everything the loop does with a signal that is not the poison pill. */
    method ProcessSignal(signal: Signal) returns (alerts: seq<Alert>)
      requires Valid()
      modifies this`rules
      ensures Valid()
      ensures (rules, alerts) == Scan(old(rules), signal)
    {
      hide Evaluate, Wants;
      alerts := [];
      ghost var before := rules;
      var row := routingTable[TypeIndex(signal.kind)];
      RoutingRefinesScan(rules, signal);
      for j := 0 to |row|
        invariant |rules| == |before|
        invariant (rules, alerts) == EvaluateRow(before, row[..j], signal)
      {
        assert row[..j + 1][..j] == row[..j];
        var (rule, more) := Evaluate(rules[row[j]], signal);
        rules := rules[row[j] := rule];
        alerts := alerts + more;
      }
      assert row[..|row|] == row;
      InterestsKept(before, signal);
      forall i | 0 <= i < SIGNAL_TYPE_COUNT
        ensures Routed(rules, |rules|, i) == Routed(before, |before|, i)
      {
        SameInterestsSameRows(before, rules, |rules|, i);
      }
    }
  }

  lemma EvaluationKeepsInterests(r: Rule, s: Signal)
    ensures Interests(Evaluate(r, s).0) == Interests(r)
  {
  }

  lemma {:induction false} InterestsKept(rules: seq<Rule>, s: Signal)
    ensures forall k :: 0 <= k < |rules| ==> Interests(Scan(rules, s).0[k]) == Interests(rules[k])
  {
    hide Evaluate, Interests, Wants;
    if rules != [] {
      InterestsKept(rules[..|rules| - 1], s);
      EvaluationKeepsInterests(rules[|rules| - 1], s);
    }
  }

  lemma {:induction false} SameInterestsSameRows(a: seq<Rule>, b: seq<Rule>, n: nat, i: nat)
    requires |a| == |b| && n <= |a| && i < SIGNAL_TYPE_COUNT
    requires forall k :: 0 <= k < |a| ==> Interests(a[k]) == Interests(b[k])
    ensures Routed(a, n, i) == Routed(b, n, i)
  {
    if n > 0 {
      SameInterestsSameRows(a, b, n - 1, i);
    }
  }

  /** The single-threaded program: rules over a list of signals, alerts in order. */
  function ScanAll(rules: seq<Rule>, signals: seq<Signal>): (seq<Rule>, seq<Alert>)
    decreases |signals|
  {
    if signals == [] then (rules, [])
    else
      var (after, alerts) := Scan(rules, signals[0]);
      var (final, more) := ScanAll(after, signals[1..]);
      (final, alerts + more)
  }
}
