/**
 The control plane's side of the policy: editing the rule table, and the dry run that
 answers what the proxy would do.
 */
module PolicyTable {
  import opened Basics
  import opened PyText
  import opened Policy

  // -------------------------------------------------------------------- dry run

  /** The answer of the dry run. */
  datatype Verdict = Verdict(
    action: Action, captureBodies: bool, redact: bool, ruleId: Option<int>, ruleName: Option<string>)

  const NO_MATCH := Verdict(Intercept, false, true, None, None)

  function VerdictOf(r: Rule): Verdict {
    Verdict(r.action, r.captureBodies, r.redact, Some(r.id), Some(r.name))
  }

  predicate MatchesHostPort(lib: Library, r: Rule, q: Query) {
    (r.port == None || r.port == Some(q.port)) && lib.glob(Lower(q.host), Lower(PatternOf(r)))
  }

  /** The client condition of the dry run: any parse failure skips the rule. */
  predicate AdmitsClient(lib: Library, r: Rule, q: Query) {
    match r.clientCidr
    case None => true
    case Some(cidr) =>
      cidr == "" ||
      (match (lib.address(q.clientIp), lib.network(cidr))
       case (Some(address), Some(network)) => lib.inside(address, network)
       case _ => false)
  }

  function DryRun(lib: Library, rows: seq<Rule>, q: Query): Verdict {
    if rows == [] then NO_MATCH
    else if MatchesHostPort(lib, rows[0], q) && AdmitsClient(lib, rows[0], q) then VerdictOf(rows[0])
    else DryRun(lib, rows[1..], q)
  }

  /** `test_policy`: the first enabled rule by priority that matches. */
  method TestPolicy(lib: Library, rows: seq<Rule>, q: Query) returns (v: Verdict)
    ensures v == DryRun(lib, rows, q)
  {
    for i := 0 to |rows|
      invariant DryRun(lib, rows, q) == DryRun(lib, rows[i..], q)
    {
      var rule := rows[i];
      assert rows[i..][1..] == rows[i + 1..];
      if rule.port.Some? && rule.port.value != q.port { continue; }
      if !lib.glob(Lower(q.host), Lower(if rule.hostPattern == "" then "*" else rule.hostPattern)) { continue; }
      if rule.clientCidr.Some? && rule.clientCidr.value != "" {
        var address := lib.address(q.clientIp);
        if address == None { continue; }
        var network := lib.network(rule.clientCidr.value);
        if network == None { continue; }
        if !lib.inside(address.value, network.value) { continue; }
      }
      return VerdictOf(rule);
    }
    v := NO_MATCH;
  }

  /** A rule the dry run accepts, before every other such rule by priority, then id. */
  ghost predicate DryRunWins(lib: Library, table: seq<Rule>, r: Rule, q: Query) {
    && r in table && DryRunApplies(lib, r, q)
    && forall s :: s in table && DryRunApplies(lib, s, q) && s != r ==>
         r.priority < s.priority || (r.priority == s.priority && r.id < s.id)
  }

  /** When the dry run accepts a rule: as the proxy does, but a client network that does not parse accepts nobody. */
  lemma DryRunAppliesIff(lib: Library, r: Rule, q: Query)
    ensures DryRunApplies(lib, r, q) <==>
      && r.enabled
      && (r.port.Some? ==> r.port.value == q.port)
      && lib.glob(Lower(q.host), Lower(if r.hostPattern == "" then "*" else r.hostPattern))
      && (r.clientCidr.Some? && r.clientCidr.value != "" ==>
            lib.network(r.clientCidr.value).Some? && ClientIn(lib, q, lib.network(r.clientCidr.value).value))
  {
  }

  lemma {:induction false} DryRunFirst(lib: Library, rows: seq<Rule>, q: Query) returns (winner: Option<Rule>)
    requires Ordered(rows) && forall r :: r in rows ==> r.enabled
    ensures match winner
      case Some(r) => DryRunWins(lib, rows, r, q) && DryRun(lib, rows, q) == VerdictOf(r)
      case None => (forall r :: r in rows ==> !DryRunApplies(lib, r, q)) && DryRun(lib, rows, q) == NO_MATCH
    decreases |rows|
  {
    if rows == [] {
      winner := None;
    } else {
      assert rows[0] in rows;
      assert rows == [rows[0]] + rows[1..];
      if DryRunApplies(lib, rows[0], q) {
        winner := Some(rows[0]);
        forall s | s in rows && s != rows[0]
          ensures Precedes(rows[0], s)
        {
          var j :| 0 <= j < |rows| && rows[j] == s;
        }
      } else {
        winner := DryRunFirst(lib, rows[1..], q);
      }
    }
  }

  /** The dry run answers with the least accepted row of the table, field by field, or with the fixed default. */
  lemma DryRunIsLeast(lib: Library, table: seq<Rule>, q: Query) returns (winner: Option<Rule>)
    requires UniqueIds(table)
    ensures var v := DryRun(lib, Select(table), q);
      match winner
      case Some(r) =>
        && DryRunWins(lib, table, r, q)
        && v == Verdict(r.action, r.captureBodies, r.redact, Some(r.id), Some(r.name))
      case None => (forall r :: r in table ==> !DryRunApplies(lib, r, q)) && v == Verdict(Intercept, false, true, None, None)
  {
    SelectOrdered(table);
    SelectContents(table);
    winner := DryRunFirst(lib, Select(table), q);
  }

  // --------------------------------------------------------------------- parity

  /** The two evaluators give the same answer, the fallback's display name aside. */
  predicate Agree(d: Decision, v: Verdict) {
    d.action == v.action && d.captureBodies == v.captureBodies && d.redact == v.redact && d.ruleId == v.ruleId
  }

  /** A client condition that does not parse: no condition to the proxy, no match to the dry run. */
  predicate IsBroken(lib: Library, r: Rule) {
    r.clientCidr.Some? && r.clientCidr.value != "" && lib.network(r.clientCidr.value) == None
  }

  ghost predicate Sound(lib: Library, rows: seq<Rule>) {
    forall r :: r in rows ==> !IsBroken(lib, r)
  }

  predicate DryRunApplies(lib: Library, r: Rule, q: Query) {
    r.enabled && MatchesHostPort(lib, r, q) && AdmitsClient(lib, r, q)
  }

  lemma MatchersDifferOnBroken(lib: Library, r: Rule, q: Query)
    ensures !IsBroken(lib, r) ==>
      (MatchesCompiled(lib, CompileRule(lib, r), q) <==> MatchesHostPort(lib, r, q) && AdmitsClient(lib, r, q))
    ensures IsBroken(lib, r) ==> !AdmitsClient(lib, r, q)
    ensures IsBroken(lib, r) ==> (MatchesCompiled(lib, CompileRule(lib, r), q) <==> MatchesHostPort(lib, r, q))
  {
  }

  /** On sound rows both scans stop at the same rule or both fall through. */
  lemma {:induction false} ScansAgree(lib: Library, rows: seq<Rule>, fallback: Decision, q: Query)
    requires Sound(lib, rows) && fallback.ruleId == None
    ensures var d := Evaluated(lib, CompileRules(lib, rows), fallback, q);
      var v := DryRun(lib, rows, q);
      if exists r :: r in rows && MatchesCompiled(lib, CompileRule(lib, r), q) then Agree(d, v)
      else d == fallback && v == NO_MATCH
    decreases |rows|
  {
    if rows != [] {
      assert rows[0] in rows && rows == [rows[0]] + rows[1..];
      MatchersDifferOnBroken(lib, rows[0], q);
      assert CompileRules(lib, rows)[1..] == CompileRules(lib, rows[1..]);
      if !MatchesCompiled(lib, CompileRule(lib, rows[0]), q) {
        ScansAgree(lib, rows[1..], fallback, q);
      }
    }
  }

  /**
   Parity: on every table without broken conditions and for every query, the proxy after a
   refresh and the dry run agree exactly when some rule matches or the proxy's configured
   fallback is the one the dry run assumes.
   */
  lemma ParityIff(lib: Library, table: seq<Rule>, fallback: Decision, q: Query)
    requires Sound(lib, table) && fallback.ruleId == None
    ensures Agree(Evaluated(lib, CompileRules(lib, Select(table)), fallback, q), DryRun(lib, Select(table), q)) <==>
      (exists r :: r in table && Applies(lib, r, q)) ||
      (fallback.action == Intercept && !fallback.captureBodies && fallback.redact)
  {
    SelectContents(table);
    ScansAgree(lib, Select(table), fallback, q);
    if r :| r in table && Applies(lib, r, q) {
      assert r in Select(table);
    }
  }

  /**
   With broken conditions in the table the two still pick the same rule for a query exactly
   when every broken rule that the query reaches comes after a rule the dry run accepts.
   */
  predicate Shielded(lib: Library, rows: seq<Rule>, b: Rule, q: Query) {
    exists g :: g in rows && DryRunApplies(lib, g, q) && Precedes(g, b)
  }

  lemma {:induction false} SameRuleIff(lib: Library, rows: seq<Rule>, fallback: Decision, q: Query)
    requires Ordered(rows) && UniqueIds(rows) && (forall r :: r in rows ==> r.enabled) && fallback.ruleId == None
    ensures Evaluated(lib, CompileRules(lib, rows), fallback, q).ruleId == DryRun(lib, rows, q).ruleId <==>
      forall b :: b in rows && IsBroken(lib, b) && MatchesHostPort(lib, b, q) ==> Shielded(lib, rows, b, q)
    decreases |rows|
  {
    if rows != [] {
      var first, rest := rows[0], rows[1..];
      assert rows == [first] + rest && first in rows;
      assert CompileRules(lib, rows)[1..] == CompileRules(lib, rest);
      MatchersDifferOnBroken(lib, first, q);
      FirstPrecedes(rows);
      if DryRunApplies(lib, first, q) {
        forall b | b in rest
          ensures Shielded(lib, rows, b, q)
        {
          assert Precedes(first, b);
        }
      } else if IsBroken(lib, first) && MatchesHostPort(lib, first, q) {
        DryRunNames(lib, rest, q);
        assert !Shielded(lib, rows, first, q);
      } else {
        SameRuleIff(lib, rest, fallback, q);
        forall b | b in rest
          ensures Shielded(lib, rows, b, q) <==> Shielded(lib, rest, b, q)
        {
        }
      }
    }
  }

  lemma FirstPrecedes(rows: seq<Rule>)
    requires Ordered(rows) && UniqueIds(rows) && rows != []
    ensures forall r :: r in rows[1..] ==> Precedes(rows[0], r) && !Precedes(r, rows[0]) && r.id != rows[0].id
  {
    forall r | r in rows[1..]
      ensures Precedes(rows[0], r) && r.id != rows[0].id
    {
      var k :| 0 <= k < |rows[1..]| && rows[1..][k] == r;
      assert rows[k + 1] == r;
    }
  }

  lemma DryRunNames(lib: Library, rows: seq<Rule>, q: Query)
    ensures var v := DryRun(lib, rows, q); v.ruleId.Some? ==> exists r :: r in rows && v.ruleId == Some(r.id)
  {
  }

  /** The exact condition over a stored table. */
  lemma SameRuleOnTableIff(lib: Library, table: seq<Rule>, fallback: Decision, q: Query)
    requires UniqueIds(table) && fallback.ruleId == None
    ensures Evaluated(lib, CompileRules(lib, Select(table)), fallback, q).ruleId == DryRun(lib, Select(table), q).ruleId <==>
      forall b :: b in table && b.enabled && IsBroken(lib, b) && MatchesHostPort(lib, b, q) ==> Shielded(lib, table, b, q)
  {
    var rows := Select(table);
    SelectOrdered(table);
    SelectContents(table);
    OrderedHasUniqueIds(table);
    SameRuleIff(lib, rows, fallback, q);
    forall b
      ensures Shielded(lib, rows, b, q) <==> Shielded(lib, table, b, q)
    {
    }
  }

  lemma {:induction false} OrderedHasUniqueIds(table: seq<Rule>)
    requires UniqueIds(table)
    ensures UniqueIds(Select(table))
  {
    SelectOrdered(table);
    SelectContents(table);
    var rows := Select(table);
    forall i, j | 0 <= i < j < |rows|
      ensures rows[i].id != rows[j].id
    {
      assert rows[i] in table && rows[j] in table;
      assert Precedes(rows[i], rows[j]);
      var k :| 0 <= k < |table| && table[k] == rows[i];
      var l :| 0 <= l < |table| && table[l] == rows[j];
    }
  }

  /** A one-row table on which the two evaluators disagree. */
  lemma BrokenConditionBreaksParity(lib: Library, r: Rule, fallback: Decision, q: Query)
    requires r.enabled && IsBroken(lib, r) && MatchesHostPort(lib, r, q) && fallback.ruleId == None
    ensures Evaluated(lib, CompileRules(lib, Select([r])), fallback, q).ruleId == Some(r.id)
    ensures DryRun(lib, Select([r]), q) == NO_MATCH
  {
    assert Select([r]) == [r];
    MatchersDifferOnBroken(lib, r, q);
  }

  // ----------------------------------------------------------- editing the table

  /** A field of a partial update: not sent, sent as null, or sent with a value. */
  datatype Change<+T> = Unset | SetNull | SetTo(value: T)

  function Applied<T>(c: Change<T>, current: T): T {
    if c.SetTo? then c.value else current
  }

  function AppliedOptional<T>(c: Change<T>, current: Option<T>): Option<T> {
    match c case Unset => current case SetNull => None case SetTo(v) => Some(v)
  }

  datatype RuleUpdate = RuleUpdate(
    name: Change<string>, priority: Change<int>, enabled: Change<bool>,
    hostPattern: Change<string>, clientCidr: Change<string>, port: Change<int>,
    action: Change<Action>, captureBodies: Change<bool>, captureMaxBytes: Change<int>, redact: Change<bool>)
  {
    /** Null in a column that does not take it: the commit fails. */
    predicate NullsRequired() {
      name.SetNull? || priority.SetNull? || enabled.SetNull? || hostPattern.SetNull?
      || action.SetNull? || captureBodies.SetNull? || captureMaxBytes.SetNull? || redact.SetNull?
    }

    function On(r: Rule): Rule {
      Rule(r.id, Applied(name, r.name), Applied(priority, r.priority), Applied(enabled, r.enabled),
           Applied(hostPattern, r.hostPattern), AppliedOptional(clientCidr, r.clientCidr),
           AppliedOptional(port, r.port), Applied(action, r.action), Applied(captureBodies, r.captureBodies),
           Applied(captureMaxBytes, r.captureMaxBytes), Applied(redact, r.redact))
    }
  }

  datatype Outcome = Done | NotFound | Unprocessable | CommitFailed

  // ------------------------------------------------------- the table as a value

  /** The rule table and the next identity the database hands out. */
  datatype Table = Table(rows: seq<Rule>, nextId: int)

  /** Keys are unique and every stored client condition parses. */
  ghost predicate ValidTable(lib: Library, t: Table) {
    UniqueIds(t.rows) && Sound(lib, t.rows) && forall r :: r in t.rows ==> r.id < t.nextId
  }

  predicate Holds(rows: seq<Rule>, id: int) {
    exists i :: 0 <= i < |rows| && rows[i].id == id
  }

  /** What a validated payload is stored as: an empty client condition becomes none. */
  function Stored(payload: Rule, id: int): Rule {
    payload.(id := id, clientCidr := if payload.clientCidr == Some("") then None else payload.clientCidr)
  }

  function AfterCreate(lib: Library, t: Table, payload: Rule): Table {
    if IsBroken(lib, payload) then t else Table(t.rows + [Stored(payload, t.nextId)], t.nextId + 1)
  }

  predicate BreaksCondition(lib: Library, changes: RuleUpdate) {
    changes.clientCidr.SetTo? && changes.clientCidr.value != "" && lib.network(changes.clientCidr.value) == None
  }

  function UpdateOutcome(lib: Library, t: Table, id: int, changes: RuleUpdate): Outcome {
    if !Holds(t.rows, id) then NotFound
    else if BreaksCondition(lib, changes) then Unprocessable
    else if changes.NullsRequired() then CommitFailed
    else Done
  }

  /** The rows with the changes made to the row called `id`. */
  function Changed(rows: seq<Rule>, id: int, changes: RuleUpdate): (r: seq<Rule>)
    ensures |r| == |rows|
    ensures forall i :: 0 <= i < |rows| ==> r[i] == if rows[i].id == id then changes.On(rows[i]) else rows[i]
  {
    seq(|rows|, i requires 0 <= i < |rows| => if rows[i].id == id then changes.On(rows[i]) else rows[i])
  }

  function AfterUpdate(lib: Library, t: Table, id: int, changes: RuleUpdate): Table {
    if UpdateOutcome(lib, t, id, changes) == Done then t.(rows := Changed(t.rows, id, changes)) else t
  }

  function OtherThan(id: int): Rule -> bool {
    (r: Rule) => r.id != id
  }

  /** The rows other than `id`. */
  function Removed(rows: seq<Rule>, id: int): seq<Rule> {
    Filter(rows, OtherThan(id))
  }

  function AfterDelete(t: Table, id: int): Table {
    t.(rows := Removed(t.rows, id))
  }

  /** A payload with an unparseable network changes nothing; any other is stored at the end under the next id. */
  lemma CreateMeaning(lib: Library, t: Table, payload: Rule)
    ensures var u := AfterCreate(lib, t, payload);
      if payload.clientCidr.Some? && payload.clientCidr.value != "" && lib.network(payload.clientCidr.value) == None then u == t
      else
        && u.nextId == t.nextId + 1 && |u.rows| == |t.rows| + 1 && u.rows[..|t.rows|] == t.rows
        && u.rows[|t.rows|] == Rule(
             t.nextId, payload.name, payload.priority, payload.enabled, payload.hostPattern,
             if payload.clientCidr == Some("") then None else payload.clientCidr, payload.port,
             payload.action, payload.captureBodies, payload.captureMaxBytes, payload.redact)
  {
  }

  /** What one sent field makes of a column that takes no null: only a value changes it. */
  predicate Takes<T(==)>(c: Change<T>, before: T, after: T) {
    (c.SetTo? ==> after == c.value) && (!c.SetTo? ==> after == before)
  }

  /** And of one that takes null. */
  predicate TakesOptional<T(==)>(c: Change<T>, before: Option<T>, after: Option<T>) {
    && (c == Unset ==> after == before) && (c == SetNull ==> after == None)
    && (c.SetTo? ==> after == Some(c.value))
  }

  /** An update sets each sent field of the row, and nothing else. */
  lemma UpdateMeaning(changes: RuleUpdate, r: Rule)
    ensures var s := changes.On(r);
      && s.id == r.id
      && Takes(changes.name, r.name, s.name) && Takes(changes.priority, r.priority, s.priority)
      && Takes(changes.enabled, r.enabled, s.enabled) && Takes(changes.hostPattern, r.hostPattern, s.hostPattern)
      && TakesOptional(changes.clientCidr, r.clientCidr, s.clientCidr) && TakesOptional(changes.port, r.port, s.port)
      && Takes(changes.action, r.action, s.action) && Takes(changes.captureBodies, r.captureBodies, s.captureBodies)
      && Takes(changes.captureMaxBytes, r.captureMaxBytes, s.captureMaxBytes) && Takes(changes.redact, r.redact, s.redact)
  {
  }

  /** A null is refused by every column but the client network and the port. */
  lemma NullRefusedIff(lib: Library, t: Table, id: int, changes: RuleUpdate)
    requires Holds(t.rows, id) && !BreaksCondition(lib, changes)
    ensures UpdateOutcome(lib, t, id, changes) == CommitFailed <==>
      || changes.name == SetNull || changes.priority == SetNull || changes.enabled == SetNull
      || changes.hostPattern == SetNull || changes.action == SetNull || changes.captureBodies == SetNull
      || changes.captureMaxBytes == SetNull || changes.redact == SetNull
  {
  }

  /** An update changes exactly the row of that id, unless the id is unknown, the network does not parse or a column is null. */
  lemma UpdatedRows(lib: Library, t: Table, id: int, changes: RuleUpdate)
    ensures var u := AfterUpdate(lib, t, id, changes);
      && u.nextId == t.nextId && |u.rows| == |t.rows|
      && forall i :: 0 <= i < |t.rows| ==>
           u.rows[i] ==
             if t.rows[i].id == id && !changes.NullsRequired()
                && !(changes.clientCidr.SetTo? && changes.clientCidr.value != "" && lib.network(changes.clientCidr.value) == None)
             then changes.On(t.rows[i]) else t.rows[i]
  {
  }

  /** A delete takes exactly the row of that id out. */
  lemma DeleteMeaning(t: Table, id: int)
    requires UniqueIds(t.rows)
    ensures forall i :: 0 <= i < |t.rows| && t.rows[i].id == id ==>
      AfterDelete(t, id) == Table(t.rows[..i] + t.rows[i + 1..], t.nextId)
    ensures (forall i :: 0 <= i < |t.rows| ==> t.rows[i].id != id) ==> AfterDelete(t, id) == t
  {
    if Holds(t.rows, id) {
      forall i | 0 <= i < |t.rows| && t.rows[i].id == id
        ensures Removed(t.rows, id) == t.rows[..i] + t.rows[i + 1..]
      {
        RemovedAt(t.rows, i);
      }
    } else {
      FilterAll(t.rows, OtherThan(id));
    }
  }

  lemma RemovedKeeps(rows: seq<Rule>, id: int)
    ensures forall r :: r in Removed(rows, id) <==> r in rows && r.id != id
    ensures UniqueIds(rows) ==> UniqueIds(Removed(rows, id))
  {
    FilterContents(rows, OtherThan(id));
    if UniqueIds(rows) {
      if Holds(rows, id) {
        var i :| 0 <= i < |rows| && rows[i].id == id;
        RemovedAt(rows, i);
      } else {
        FilterAll(rows, OtherThan(id));
      }
    }
  }

  lemma RemovedAt(rows: seq<Rule>, i: nat)
    requires i < |rows| && UniqueIds(rows)
    ensures Removed(rows, rows[i].id) == rows[..i] + rows[i + 1..]
  {
    FilterAt(rows, i, OtherThan(rows[i].id));
  }

  // --------------------------------------------------------- what every edit keeps

  datatype Edit = CreateRule(payload: Rule) | UpdateRule(id: int, changes: RuleUpdate) | DeleteRule(id: int)

  function AfterEdit(lib: Library, t: Table, edit: Edit): Table {
    match edit
    case CreateRule(payload) => AfterCreate(lib, t, payload)
    case UpdateRule(id, changes) => AfterUpdate(lib, t, id, changes)
    case DeleteRule(id) => AfterDelete(t, id)
  }

  /** The table after a run of edits. */
  function Edited(lib: Library, t: Table, edits: seq<Edit>): Table {
    if edits == [] then t else AfterEdit(lib, Edited(lib, t, edits[..|edits| - 1]), edits[|edits| - 1])
  }

  lemma CreateKeeps(lib: Library, t: Table, payload: Rule)
    requires ValidTable(lib, t)
    ensures ValidTable(lib, AfterCreate(lib, t, payload))
  {
    if !IsBroken(lib, payload) {
      var rows := AfterCreate(lib, t, payload).rows;
      assert forall i :: 0 <= i < |t.rows| ==> rows[i] == t.rows[i] && t.rows[i] in t.rows;
    }
  }

  lemma UpdateKeeps(lib: Library, t: Table, id: int, changes: RuleUpdate)
    requires ValidTable(lib, t)
    ensures ValidTable(lib, AfterUpdate(lib, t, id, changes))
  {
    if UpdateOutcome(lib, t, id, changes) == Done {
      var rows := Changed(t.rows, id, changes);
      forall i | 0 <= i < |rows|
        ensures rows[i].id == t.rows[i].id < t.nextId && !IsBroken(lib, rows[i])
      {
        assert t.rows[i] in t.rows;
      }
    }
  }

  /** An invalid table cannot be reached from a valid one by any edit. */
  lemma EditKeeps(lib: Library, t: Table, edit: Edit)
    requires ValidTable(lib, t)
    ensures ValidTable(lib, AfterEdit(lib, t, edit))
  {
    match edit {
      case CreateRule(payload) => CreateKeeps(lib, t, payload);
      case UpdateRule(id, changes) => UpdateKeeps(lib, t, id, changes);
      case DeleteRule(id) => RemovedKeeps(t.rows, id);
    }
  }

  lemma {:induction false} EditsKeep(lib: Library, t: Table, edits: seq<Edit>)
    requires ValidTable(lib, t)
    ensures ValidTable(lib, Edited(lib, t, edits))
    decreases |edits|
  {
    if edits != [] {
      EditsKeep(lib, t, edits[..|edits| - 1]);
      EditKeeps(lib, Edited(lib, t, edits[..|edits| - 1]), edits[|edits| - 1]);
    }
  }

  /**
   Dry-run parity on every reachable table: after any run of edits and for every query, the
   proxy with its default fallback settings and the dry run agree.
   */
  lemma EditsKeepParity(lib: Library, t: Table, edits: seq<Edit>, maxBytes: int, q: Query)
    requires ValidTable(lib, t)
    ensures var rows := Select(Edited(lib, t, edits).rows);
      Agree(Evaluated(lib, CompileRules(lib, rows), FallbackDecision(Intercept, false, maxBytes), q), DryRun(lib, rows, q))
  {
    EditsKeep(lib, t, edits);
    ParityIff(lib, Edited(lib, t, edits).rows, FallbackDecision(Intercept, false, maxBytes), q);
  }

  // ------------------------------------------------------------------ the object

  class RuleTable {
    const lib: Library
    var rows: seq<Rule>
    var nextId: int

    function View(): Table
      reads this
    {
      Table(rows, nextId)
    }

    ghost predicate Valid()
      reads this
    {
      ValidTable(lib, View())
    }

    constructor (lib: Library)
      ensures Valid() && rows == [] && this.lib == lib
    {
      this.lib := lib;
      rows, nextId := [], 1;
    }

    /** The row called `id`, if any. */
    method Find(id: int) returns (i: int)
      ensures -1 <= i < |rows|
      ensures 0 <= i ==> rows[i].id == id
      ensures i == -1 ==> !Holds(rows, id)
    {
      for k := 0 to |rows|
        invariant forall j :: 0 <= j < k ==> rows[j].id != id
      {
        if rows[k].id == id { return k; }
      }
      i := -1;
    }

    method Create(payload: Rule) returns (outcome: Outcome)
      requires Valid()
      modifies this
      ensures Valid() && View() == AfterCreate(lib, old(View()), payload)
      ensures outcome == if IsBroken(lib, payload) then Unprocessable else Done
    {
      CreateKeeps(lib, View(), payload);
      var cidr := payload.clientCidr;
      if cidr.Some? {
        if cidr.value == "" {
          cidr := None;
        } else if lib.network(cidr.value) == None {
          return Unprocessable;
        }
      }
      rows := rows + [payload.(id := nextId, clientCidr := cidr)];
      nextId := nextId + 1;
      outcome := Done;
    }

    /** The row called `id` with the sent fields set, one by one. */
    static method SetFields(row: Rule, changes: RuleUpdate) returns (rule: Rule)
      ensures rule == changes.On(row)
    {
      rule := row;
      rule := rule.(name := Applied(changes.name, rule.name));
      rule := rule.(priority := Applied(changes.priority, rule.priority));
      rule := rule.(enabled := Applied(changes.enabled, rule.enabled));
      rule := rule.(hostPattern := Applied(changes.hostPattern, rule.hostPattern));
      rule := rule.(clientCidr := AppliedOptional(changes.clientCidr, rule.clientCidr));
      rule := rule.(port := AppliedOptional(changes.port, rule.port));
      rule := rule.(action := Applied(changes.action, rule.action));
      rule := rule.(captureBodies := Applied(changes.captureBodies, rule.captureBodies));
      rule := rule.(captureMaxBytes := Applied(changes.captureMaxBytes, rule.captureMaxBytes));
      rule := rule.(redact := Applied(changes.redact, rule.redact));
    }

    method Update(id: int, changes: RuleUpdate) returns (outcome: Outcome)
      requires Valid()
      modifies this
      ensures Valid() && View() == AfterUpdate(lib, old(View()), id, changes)
      ensures outcome == UpdateOutcome(lib, old(View()), id, changes)
    {
      UpdateKeeps(lib, View(), id, changes);
      var i := Find(id);
      if i < 0 { return NotFound; }
      assert Holds(rows, id);
      if BreaksCondition(lib, changes) { return Unprocessable; }
      var rule := SetFields(rows[i], changes);
      if changes.NullsRequired() { return CommitFailed; }
      ghost var before := rows;
      rows := rows[i := rule];
      assert rows == Changed(before, id, changes);
      outcome := Done;
    }

    method Delete(id: int) returns (outcome: Outcome)
      requires Valid()
      modifies this
      ensures Valid() && View() == AfterDelete(old(View()), id)
      ensures outcome == if Holds(old(rows), id) then Done else NotFound
    {
      RemovedKeeps(rows, id);
      var i := Find(id);
      if i < 0 {
        FilterAll(rows, OtherThan(id));
        return NotFound;
      }
      RemovedAt(rows, i);
      rows := rows[..i] + rows[i + 1..];
      outcome := Done;
    }
  }

  /** Applies a run of edits, refreshes a proxy, and asks both sides the same query. */
  method EditAndAsk(table: RuleTable, edits: seq<Edit>, engine: PolicyEngine, q: Query)
    returns (d: Decision, v: Verdict)
    requires table.Valid() && engine.Valid() && engine.lib == table.lib
    modifies table, engine
    ensures table.Valid() && engine.Valid()
    ensures table.View() == Edited(table.lib, old(table.View()), edits)
    ensures var rows := Select(table.rows);
      && engine.rules == CompileRules(table.lib, rows)
      && d == Evaluated(table.lib, engine.rules, engine.fallback, q) && v == DryRun(table.lib, rows, q)
    ensures (exists maxBytes :: engine.fallback == FallbackDecision(Intercept, false, maxBytes)) ==> Agree(d, v)
  {
    for k := 0 to |edits|
      invariant table.Valid() && engine.Valid()
      invariant table.View() == Edited(table.lib, old(table.View()), edits[..k])
    {
      assert edits[..k + 1][..k] == edits[..k];
      var outcome: Outcome;
      match edits[k] {
        case CreateRule(payload) => outcome := table.Create(payload);
        case UpdateRule(id, changes) => outcome := table.Update(id, changes);
        case DeleteRule(id) => outcome := table.Delete(id);
      }
    }
    assert edits[..|edits|] == edits;
    engine.Refresh(Select(table.rows));
    d := engine.Evaluate(q);
    v := TestPolicy(table.lib, Select(table.rows), q);
    if maxBytes :| engine.fallback == FallbackDecision(Intercept, false, maxBytes) {
      EditsKeepParity(table.lib, old(table.View()), edits, maxBytes, q);
    }
  }
}
