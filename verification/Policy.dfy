/**
 Access-policy evaluation in the proxy: rules are read in order, compiled once, and the
 first match decides.
 */
module Policy {
  import opened Basics
  import opened PyText

  datatype Action = Intercept | Bypass | Block

  /** A row of the rule table. */
  datatype Rule = Rule(
    id: int, name: string, priority: int, enabled: bool,
    hostPattern: string, clientCidr: Option<string>, port: Option<int>,
    action: Action, captureBodies: bool, captureMaxBytes: int, redact: bool)

  datatype Decision = Decision(
    action: Action, captureBodies: bool, captureMaxBytes: int, redact: bool,
    ruleId: Option<int>, ruleName: Option<string>)

  datatype Query = Query(host: string, port: int, clientIp: string)

  /**
   The library functions the matcher rests on: glob matching, and parsing of networks
   and addresses into codes, with None where the library raises ValueError.
   */
  datatype Library = Library(
    glob: (string, string) -> bool,
    network: string -> Option<int>,
    address: string -> Option<int>,
    inside: (int, int) -> bool)

  datatype CompiledRule = CompiledRule(
    id: int, name: string, priority: int, hostPattern: string, network: Option<int>, port: Option<int>,
    action: Action, captureBodies: bool, captureMaxBytes: int, redact: bool)

  // ---------------------------------------------------------- order of the rules

  predicate Precedes(r: Rule, s: Rule) {
    r.priority < s.priority || (r.priority == s.priority && r.id < s.id)
  }

  ghost predicate UniqueIds(rows: seq<Rule>) {
    forall i, j :: 0 <= i < j < |rows| ==> rows[i].id != rows[j].id
  }

  ghost predicate Ordered(rows: seq<Rule>) {
    forall i, j :: 0 <= i < j < |rows| ==> Precedes(rows[i], rows[j])
  }

  function InsertRow(r: Rule, rows: seq<Rule>): (s: seq<Rule>)
    ensures multiset(s) == multiset(rows) + multiset{r}
  {
    if rows == [] || Precedes(r, rows[0]) then [r] + rows
    else
      assert rows == [rows[0]] + rows[1..];
      [rows[0]] + InsertRow(r, rows[1..])
  }

  /** The enabled rows by priority, then id: what both evaluators select from the table. */
  function Select(table: seq<Rule>): seq<Rule> {
    if table == [] then []
    else if table[0].enabled then InsertRow(table[0], Select(table[1..]))
    else Select(table[1..])
  }

  lemma {:induction false} InsertOrdered(r: Rule, rows: seq<Rule>)
    requires Ordered(rows) && forall s :: s in rows ==> s.id != r.id
    ensures Ordered(InsertRow(r, rows))
  {
    if rows != [] && !Precedes(r, rows[0]) {
      var tail := rows[1..];
      InsertOrdered(r, tail);
      var rest := InsertRow(r, tail);
      forall i | 0 <= i < |rest|
        ensures Precedes(rows[0], rest[i])
      {
        assert rest[i] in multiset(rest);
        if rest[i] != r {
          assert rest[i] in multiset(tail);
          var j :| 0 <= j < |tail| && tail[j] == rest[i];
          assert rows[j + 1] == rest[i];
        }
      }
    }
  }

  lemma InsertContents(r: Rule, rows: seq<Rule>)
    ensures forall s :: s in InsertRow(r, rows) <==> s == r || s in rows
  {
    var out := InsertRow(r, rows);
    assert forall s :: s in out <==> s in multiset(out);
    assert forall s :: s in rows <==> s in multiset(rows);
  }

  lemma SelectContents(table: seq<Rule>)
    ensures forall r :: r in Select(table) <==> r in table && r.enabled
  {
    if table != [] {
      SelectContents(table[1..]);
      if table[0].enabled {
        InsertContents(table[0], Select(table[1..]));
      }
    }
  }

  lemma SelectOrdered(table: seq<Rule>)
    requires UniqueIds(table)
    ensures Ordered(Select(table))
  {
    if table != [] {
      SelectOrdered(table[1..]);
      SelectContents(table[1..]);
      if table[0].enabled {
        forall s | s in Select(table[1..])
          ensures s.id != table[0].id
        {
          var j :| 0 <= j < |table[1..]| && table[1..][j] == s;
          assert table[j + 1] == s;
        }
        InsertOrdered(table[0], Select(table[1..]));
      }
    }
  }

  /** Two orderings of the same rows are the same sequence. */
  lemma {:induction false} OrderedUnique(a: seq<Rule>, b: seq<Rule>)
    requires Ordered(a) && Ordered(b) && forall r :: r in a <==> r in b
    ensures a == b
    decreases |a|
  {
    assert b != [] ==> b[0] in b;
    if a != [] {
      assert a[0] in b;
      assert b[0] in a;
      var i :| 0 <= i < |b| && b[i] == a[0];
      var j :| 0 <= j < |a| && a[j] == b[0];
      assert i == 0;
      forall r
        ensures r in a[1..] <==> r in b[1..]
      {
        if r in a[1..] {
          var k :| 0 <= k < |a[1..]| && a[1..][k] == r;
          assert a[k + 1] == r && Precedes(a[0], r) && r in b;
        }
        if r in b[1..] {
          var k :| 0 <= k < |b[1..]| && b[1..][k] == r;
          assert b[k + 1] == r && Precedes(b[0], r) && r in a;
        }
      }
      OrderedUnique(a[1..], b[1..]);
    }
  }

  /** The selection does not depend on the order in which the rows are stored. */
  lemma SelectIgnoresStorageOrder(t: seq<Rule>, u: seq<Rule>)
    requires UniqueIds(t) && UniqueIds(u) && forall r :: r in t <==> r in u
    ensures Select(t) == Select(u)
  {
    SelectOrdered(t);
    SelectOrdered(u);
    SelectContents(t);
    SelectContents(u);
    OrderedUnique(Select(t), Select(u));
  }

  // ----------------------------------------------------------------- compilation

  function PatternOf(r: Rule): string {
    if r.hostPattern == "" then "*" else r.hostPattern
  }

  /** The network condition: an absent, empty or unparseable CIDR is no condition. */
  function NetworkOf(lib: Library, r: Rule): Option<int> {
    match r.clientCidr
    case None => None
    case Some(cidr) => if cidr == "" then None else lib.network(cidr)
  }

  function CompileRule(lib: Library, r: Rule): CompiledRule {
    CompiledRule(r.id, r.name, r.priority, PatternOf(r), NetworkOf(lib, r), r.port,
                 r.action, r.captureBodies, r.captureMaxBytes, r.redact)
  }

  function CompileRules(lib: Library, rows: seq<Rule>): (rules: seq<CompiledRule>)
    ensures |rules| == |rows| && forall i :: 0 <= i < |rows| ==> rules[i] == CompileRule(lib, rows[i])
  {
    seq(|rows|, i requires 0 <= i < |rows| => CompileRule(lib, rows[i]))
  }

  predicate MatchesCompiled(lib: Library, rule: CompiledRule, q: Query) {
    && (rule.port == None || rule.port == Some(q.port))
    && lib.glob(Lower(q.host), Lower(rule.hostPattern))
    && match rule.network
       case None => true
       case Some(network) =>
         match lib.address(q.clientIp)
         case None => false
         case Some(address) => lib.inside(address, network)
  }

  function DecisionOf(rule: CompiledRule): Decision {
    Decision(rule.action, rule.captureBodies, rule.captureMaxBytes, rule.redact, Some(rule.id), Some(rule.name))
  }

  /** The decision of the first matching rule, or the fallback. */
  function Evaluated(lib: Library, rules: seq<CompiledRule>, fallback: Decision, q: Query): Decision {
    if rules == [] then fallback
    else if MatchesCompiled(lib, rules[0], q) then DecisionOf(rules[0])
    else Evaluated(lib, rules[1..], fallback, q)
  }

  // ------------------------------------------------ what a rule table stands for

  /** What a stored rule means to the proxy. */
  predicate Applies(lib: Library, r: Rule, q: Query) {
    r.enabled && MatchesCompiled(lib, CompileRule(lib, r), q)
  }

  /** `r` is the (priority, id)-least enabled row of the table that matches. */
  ghost predicate Wins(lib: Library, table: seq<Rule>, r: Rule, q: Query) {
    && r in table && Applies(lib, r, q)
    && forall s :: s in table && Applies(lib, s, q) && s != r ==>
         r.priority < s.priority || (r.priority == s.priority && r.id < s.id)
  }

  /** The client address parses and lies in this network. */
  predicate ClientIn(lib: Library, q: Query, network: int) {
    lib.address(q.clientIp).Some? && lib.inside(lib.address(q.clientIp).value, network)
  }

  /** When a rule applies: enabled, on its port or any, its glob in any letter case, its client network if that parses. */
  lemma AppliesIff(lib: Library, r: Rule, q: Query)
    ensures Applies(lib, r, q) <==>
      && r.enabled
      && (r.port.Some? ==> r.port.value == q.port)
      && lib.glob(Lower(q.host), Lower(if r.hostPattern == "" then "*" else r.hostPattern))
      && (r.clientCidr.Some? && r.clientCidr.value != "" && lib.network(r.clientCidr.value).Some? ==>
            ClientIn(lib, q, lib.network(r.clientCidr.value).value))
  {
  }

  /** The decision of a rule is what its row says. */
  lemma DecisionMeaning(lib: Library, r: Rule)
    ensures DecisionOf(CompileRule(lib, r)) ==
      Decision(r.action, r.captureBodies, r.captureMaxBytes, r.redact, Some(r.id), Some(r.name))
  {
  }

  lemma {:induction false} EvaluatedFirst(lib: Library, rows: seq<Rule>, fallback: Decision, q: Query)
    returns (winner: Option<Rule>)
    requires Ordered(rows) && forall r :: r in rows ==> r.enabled
    ensures var d := Evaluated(lib, CompileRules(lib, rows), fallback, q);
      match winner
      case Some(r) => Wins(lib, rows, r, q) && d == DecisionOf(CompileRule(lib, r))
      case None => (forall r :: r in rows ==> !Applies(lib, r, q)) && d == fallback
    decreases |rows|
  {
    if rows == [] {
      winner := None;
    } else {
      assert rows[0] in rows;
      assert rows == [rows[0]] + rows[1..];
      if Applies(lib, rows[0], q) {
        winner := Some(rows[0]);
        forall s | s in rows && s != rows[0]
          ensures Precedes(rows[0], s)
        {
          var j :| 0 <= j < |rows| && rows[j] == s;
        }
      } else {
        winner := EvaluatedFirst(lib, rows[1..], fallback, q);
        assert CompileRules(lib, rows)[1..] == CompileRules(lib, rows[1..]);
      }
    }
  }

  /**
   On a fresh snapshot of any table, the decision is that of the (priority, id)-least
   enabled matching row, or the fallback when no enabled row matches.
   */
  lemma EvaluatedIsLeast(lib: Library, table: seq<Rule>, fallback: Decision, q: Query) returns (winner: Option<Rule>)
    requires UniqueIds(table)
    ensures var d := Evaluated(lib, CompileRules(lib, Select(table)), fallback, q);
      match winner
      case Some(r) => Wins(lib, table, r, q) && d == DecisionOf(CompileRule(lib, r))
      case None => (forall r :: r in table ==> !Applies(lib, r, q)) && d == fallback
  {
    SelectOrdered(table);
    SelectContents(table);
    winner := EvaluatedFirst(lib, Select(table), fallback, q);
  }

  // ------------------------------------------------------------------ the engine

  function FallbackDecision(action: Action, captureBodies: bool, captureMaxBytes: int): Decision {
    Decision(action, captureBodies, captureMaxBytes, true, None, Some("default"))
  }

  /** A snapshot of the compiled rules and its version. */
  datatype RuleSnapshot = RuleSnapshot(version: nat, rules: seq<CompiledRule>)

  /** The snapshot after a refresh: the version steps exactly when the rules change. */
  function AfterRefresh(lib: Library, s: RuleSnapshot, rows: seq<Rule>): RuleSnapshot {
    var compiled := CompileRules(lib, rows);
    if compiled == s.rules then s else RuleSnapshot(s.version + 1, compiled)
  }

  /** The snapshots of a run of refreshes, the one it starts from first. */
  function History(lib: Library, s: RuleSnapshot, selections: seq<seq<Rule>>): (h: seq<RuleSnapshot>)
    ensures |h| == |selections| + 1
  {
    if selections == [] then [s]
    else
      var h := History(lib, s, selections[..|selections| - 1]);
      h + [AfterRefresh(lib, h[|h| - 1], selections[|selections| - 1])]
  }

  /** Over any run of refreshes versions never go back, and equal versions mean equal snapshots. */
  lemma {:induction false} VersionsIdentify(lib: Library, s: RuleSnapshot, selections: seq<seq<Rule>>)
    ensures var h := History(lib, s, selections);
      && (forall i, j :: 0 <= i <= j < |h| ==> h[i].version <= h[j].version)
      && (forall i, j :: 0 <= i <= j < |h| && h[i].version == h[j].version ==> h[i] == h[j])
      && (forall i :: 0 <= i < |selections| ==> h[i + 1].rules == CompileRules(lib, selections[i]))
      && (forall i :: 0 <= i < |selections| ==>
            h[i + 1].version == h[i].version + if h[i + 1].rules == h[i].rules then 0 else 1)
    decreases |selections|
  {
    if selections != [] {
      var init := selections[..|selections| - 1];
      VersionsIdentify(lib, s, init);
      var h := History(lib, s, init);
      assert forall i :: 0 <= i < |h| ==> h[i].version <= h[|h| - 1].version;
    }
  }

  class PolicyEngine {
    const lib: Library
    const fallback: Decision
    var rules: seq<CompiledRule>
    var version: nat
    /** Every snapshot so far, by version. */
    ghost var snapshots: seq<seq<CompiledRule>>

    function View(): RuleSnapshot
      reads this
    {
      RuleSnapshot(version, rules)
    }

    ghost predicate Valid()
      reads this
    {
      |snapshots| == version + 1 && snapshots[version] == rules
    }

    constructor (lib: Library, fallback: Decision)
      ensures Valid() && this.lib == lib && this.fallback == fallback
      ensures rules == [] && version == 0
    {
      this.lib, this.fallback := lib, fallback;
      rules, version := [], 0;
      snapshots := [[]];
    }

    /**
     Compiles the selected rows. The version steps exactly when the snapshot changes, so
     versions never go back and a version always stands for one snapshot.
     */
    method Refresh(rows: seq<Rule>)
      requires Valid()
      modifies this
      ensures Valid() && rules == CompileRules(lib, rows)
      ensures View() == AfterRefresh(lib, old(View()), rows)
      ensures old(snapshots) <= snapshots
    {
      var compiled: seq<CompiledRule> := [];
      for i := 0 to |rows|
        invariant Valid() && rules == old(rules) && version == old(version) && snapshots == old(snapshots)
        invariant |compiled| == i && forall j :: 0 <= j < i ==> compiled[j] == CompileRule(lib, rows[j])
      {
        var row := rows[i];
        var network: Option<int> := None;
        if row.clientCidr.Some? && row.clientCidr.value != "" {
          network := lib.network(row.clientCidr.value);
        }
        compiled := compiled + [CompiledRule(
          row.id, row.name, row.priority, if row.hostPattern == "" then "*" else row.hostPattern, network, row.port,
          row.action, row.captureBodies, row.captureMaxBytes, row.redact)];
      }
      assert compiled == CompileRules(lib, rows);
      if compiled != rules {
        rules := compiled;
        version := version + 1;
        snapshots := snapshots + [compiled];
      }
    }

    /** First matching rule by priority wins; otherwise the configured default. */
    method Evaluate(q: Query) returns (d: Decision)
      ensures d == Evaluated(lib, rules, fallback, q)
    {
      for i := 0 to |rules|
        invariant Evaluated(lib, rules, fallback, q) == Evaluated(lib, rules[i..], fallback, q)
      {
        if MatchesCompiled(lib, rules[i], q) {
          return DecisionOf(rules[i]);
        }
        assert rules[i..][1..] == rules[i + 1..];
      }
      d := fallback;
    }
  }

  /** The engine goes through exactly that history, and keeps every snapshot under its version. */
  method RefreshRun(engine: PolicyEngine, selections: seq<seq<Rule>>) returns (seen: seq<RuleSnapshot>)
    requires engine.Valid()
    modifies engine
    ensures engine.Valid() && seen == History(engine.lib, old(engine.View()), selections)
    ensures seen[|selections|] == engine.View() && old(engine.snapshots) <= engine.snapshots
    ensures forall i :: 0 <= i < |seen| ==> seen[i].version <= engine.version && engine.snapshots[seen[i].version] == seen[i].rules
  {
    seen := [engine.View()];
    for k := 0 to |selections|
      invariant engine.Valid() && seen == History(engine.lib, old(engine.View()), selections[..k])
      invariant seen[k] == engine.View() && old(engine.snapshots) <= engine.snapshots
      invariant forall i :: 0 <= i <= k ==> seen[i].version <= engine.version && engine.snapshots[seen[i].version] == seen[i].rules
    {
      assert selections[..k + 1][..k] == selections[..k];
      engine.Refresh(selections[k]);
      seen := seen + [engine.View()];
    }
    assert selections[..|selections|] == selections;
  }
}
