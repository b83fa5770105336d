/**
 The certificate-authority table of the control plane, and the proxies that follow it.
 */
module CaRotation {
  import opened Basics
  import opened PyText
  import opened Certs

  /** A row of the authority table. */
  datatype CaRow = CaRow(id: int, name: string, fingerprint: string, notAfter: int, isActive: bool)

  /** A parsed certificate bundle. */
  datatype Root = Root(fingerprint: string, notAfter: int)

  datatype Outcome = Done(id: int) | Conflict | Unprocessable | NotFound | BadRequest

  ghost predicate DistinctIds(rows: seq<CaRow>) {
    forall i, j :: 0 <= i < j < |rows| ==> rows[i].id != rows[j].id
  }

  ghost predicate DistinctNames(rows: seq<CaRow>) {
    forall i, j :: 0 <= i < j < |rows| ==> rows[i].name != rows[j].name
  }

  ghost predicate AtMostOneActive(rows: seq<CaRow>) {
    forall i, j :: 0 <= i < j < |rows| ==> !(rows[i].isActive && rows[j].isActive)
  }

  predicate SomeActive(rows: seq<CaRow>) {
    exists i :: 0 <= i < |rows| && rows[i].isActive
  }

  /** Every row other than `keep` made inactive. */
  function Deactivated(rows: seq<CaRow>, keep: int): (r: seq<CaRow>)
    ensures |r| == |rows|
    ensures forall i :: 0 <= i < |rows| ==> r[i] == if rows[i].id == keep then rows[i] else rows[i].(isActive := false)
  {
    seq(|rows|, i requires 0 <= i < |rows| => if rows[i].id == keep then rows[i] else rows[i].(isActive := false))
  }

  /** The active row with the highest id: what a proxy reads. */
  function ActiveRow(rows: seq<CaRow>): Option<CaRow> {
    if rows == [] then None
    else match ActiveRow(rows[1..])
      case Some(r) => Some(if rows[0].isActive && rows[0].id > r.id then rows[0] else r)
      case None => if rows[0].isActive then Some(rows[0]) else None
  }

  /** With at most one active row, a proxy reads exactly that one. */
  lemma {:induction false} ActiveRowIsTheOne(rows: seq<CaRow>)
    requires AtMostOneActive(rows)
    ensures ActiveRow(rows) == None <==> !SomeActive(rows)
    ensures forall i :: 0 <= i < |rows| && rows[i].isActive ==> ActiveRow(rows) == Some(rows[i])
  {
    if rows != [] {
      var rest := rows[1..];
      assert forall i :: 0 <= i < |rest| ==> rest[i] == rows[i + 1];
      ActiveRowIsTheOne(rest);
      if rows[0].isActive {
        assert !SomeActive(rest);
      } else if i :| 0 <= i < |rows| && rows[i].isActive {
        assert rest[i - 1].isActive;
      }
    }
  }

  predicate Takes(rows: seq<CaRow>, name: string) {
    exists i :: 0 <= i < |rows| && rows[i].name == name
  }

  /** The table with one more row, which becomes the only active one when it is activated. */
  function Inserted(rows: seq<CaRow>, id: int, name: string, root: Root, activate: bool): seq<CaRow> {
    var all := rows + [CaRow(id, name, root.fingerprint, root.notAfter, activate)];
    if activate then Deactivated(all, id) else all
  }

  function OtherThan(id: int): CaRow -> bool {
    (row: CaRow) => row.id != id
  }

  /** The rows other than `id`. */
  function Removed(rows: seq<CaRow>, id: int): seq<CaRow> {
    Filter(rows, OtherThan(id))
  }

  lemma RemovalKeeps(rows: seq<CaRow>, i: nat)
    requires i < |rows| && !rows[i].isActive
    requires DistinctIds(rows) && DistinctNames(rows) && AtMostOneActive(rows)
    ensures var less := rows[..i] + rows[i + 1..];
      && DistinctIds(less) && DistinctNames(less) && AtMostOneActive(less)
      && SomeActive(less) == SomeActive(rows)
      && (forall j :: 0 <= j < |less| ==> less[j] in rows)
  {
    var less := rows[..i] + rows[i + 1..];
    assert forall j :: 0 <= j < |less| ==> less[j] == if j < i then rows[j] else rows[j + 1];
    if j :| 0 <= j < |rows| && rows[j].isActive {
      assert less[if j < i then j else j - 1] == rows[j];
    }
  }

  lemma RemovedAt(rows: seq<CaRow>, i: nat)
    requires i < |rows| && DistinctIds(rows)
    ensures Removed(rows, rows[i].id) == rows[..i] + rows[i + 1..]
  {
    FilterAt(rows, i, OtherThan(rows[i].id));
  }

  // ------------------------------------------------------------ the table as a value

  /** The authority table and the next identity the database hands out. */
  datatype Table = Table(rows: seq<CaRow>, nextId: int)

  ghost predicate ValidTable(t: Table) {
    && DistinctIds(t.rows) && DistinctNames(t.rows) && AtMostOneActive(t.rows)
    && forall i :: 0 <= i < |t.rows| ==> t.rows[i].id < t.nextId
  }

  /** The row called `id`, if any. */
  function RowOf(rows: seq<CaRow>, id: int): Option<CaRow> {
    if rows == [] then None else if rows[0].id == id then Some(rows[0]) else RowOf(rows[1..], id)
  }

  lemma {:induction false} RowOfFinds(rows: seq<CaRow>, id: int)
    ensures RowOf(rows, id) == None <==> forall i :: 0 <= i < |rows| ==> rows[i].id != id
    ensures RowOf(rows, id).Some? ==> RowOf(rows, id).value in rows && RowOf(rows, id).value.id == id
  {
    if rows != [] {
      RowOfFinds(rows[1..], id);
      assert forall i :: 0 < i < |rows| ==> rows[i] == rows[1..][i - 1];
    }
  }

  lemma RowOfAt(rows: seq<CaRow>, i: nat)
    requires i < |rows| && DistinctIds(rows)
    ensures RowOf(rows, rows[i].id) == Some(rows[i])
  {
    RowOfFinds(rows, rows[i].id);
  }

  /** Generation, or an import that passed its checks. */
  function InsertOutcome(t: Table, name: string): Outcome {
    if Takes(t.rows, name) then Conflict else Done(t.nextId)
  }

  function AfterInsert(t: Table, name: string, root: Root, activate: bool): Table {
    if Takes(t.rows, name) then t else Table(Inserted(t.rows, t.nextId, name, root, activate), t.nextId + 1)
  }

  predicate Importable(bundle: Option<Root>, now: int) {
    bundle.Some? && bundle.value.notAfter >= now
  }

  function AfterImport(t: Table, name: string, bundle: Option<Root>, activate: bool, now: int): Table {
    if Importable(bundle, now) then AfterInsert(t, name, bundle.value, activate) else t
  }

  function ActivateOutcome(t: Table, id: int, now: int): Outcome {
    match RowOf(t.rows, id)
    case None => NotFound
    case Some(row) => if row.notAfter < now then BadRequest else Done(id)
  }

  /** Exactly the row called `id` made active. */
  function OnlyActive(rows: seq<CaRow>, id: int): (r: seq<CaRow>)
    ensures |r| == |rows| && forall i :: 0 <= i < |rows| ==> r[i] == rows[i].(isActive := rows[i].id == id)
  {
    seq(|rows|, i requires 0 <= i < |rows| => rows[i].(isActive := rows[i].id == id))
  }

  function AfterActivate(t: Table, id: int, now: int): Table {
    if ActivateOutcome(t, id, now).Done? then t.(rows := OnlyActive(t.rows, id)) else t
  }

  function DeleteOutcome(t: Table, id: int): Outcome {
    match RowOf(t.rows, id)
    case None => NotFound
    case Some(row) => if row.isActive then BadRequest else Done(id)
  }

  function AfterDelete(t: Table, id: int): Table {
    if DeleteOutcome(t, id).Done? then t.(rows := Removed(t.rows, id)) else t
  }

  // ----------------------------------------------------- what every edit of it keeps

  lemma InsertKeeps(t: Table, name: string, root: Root, activate: bool)
    requires ValidTable(t)
    ensures ValidTable(AfterInsert(t, name, root, activate))
    ensures SomeActive(t.rows) ==> SomeActive(AfterInsert(t, name, root, activate).rows)
    ensures activate && !Takes(t.rows, name) ==>
      ActiveRow(AfterInsert(t, name, root, activate).rows) == Some(CaRow(t.nextId, name, root.fingerprint, root.notAfter, true))
  {
    if !Takes(t.rows, name) {
      var rows := AfterInsert(t, name, root, activate).rows;
      var n := |t.rows|;
      assert |rows| == n + 1 && rows[n] == CaRow(t.nextId, name, root.fingerprint, root.notAfter, activate);
      assert forall i :: 0 <= i < n ==> rows[i] == if activate then t.rows[i].(isActive := false) else t.rows[i];
      if activate {
        ActiveRowIsTheOne(rows);
      }
    }
  }

  /** A new name adds its row at the end, inactive or as the only active one; a name in use changes nothing. */
  lemma InsertMeaning(t: Table, name: string, root: Root, activate: bool)
    ensures var u := AfterInsert(t, name, root, activate);
      if exists i :: 0 <= i < |t.rows| && t.rows[i].name == name then u == t && InsertOutcome(t, name) == Conflict
      else
        && InsertOutcome(t, name) == Done(t.nextId) && u.nextId == t.nextId + 1 && |u.rows| == |t.rows| + 1
        && u.rows[|t.rows|] == CaRow(t.nextId, name, root.fingerprint, root.notAfter, activate)
        && forall i :: 0 <= i < |t.rows| && t.rows[i].id != t.nextId ==>
             u.rows[i] == t.rows[i].(isActive := t.rows[i].isActive && !activate)
  {
    assert Takes(t.rows, name) <==> exists i :: 0 <= i < |t.rows| && t.rows[i].name == name;
  }

  /** Activation and deletion are refused for an id that no row has, an expired row and an active row, and only then. */
  lemma RefusedIff(t: Table, id: int, now: int)
    requires DistinctIds(t.rows)
    ensures ActivateOutcome(t, id, now) == NotFound <==> forall i :: 0 <= i < |t.rows| ==> t.rows[i].id != id
    ensures DeleteOutcome(t, id) == NotFound <==> forall i :: 0 <= i < |t.rows| ==> t.rows[i].id != id
    ensures forall i :: 0 <= i < |t.rows| && t.rows[i].id == id ==>
      && ActivateOutcome(t, id, now) == (if t.rows[i].notAfter < now then BadRequest else Done(id))
      && DeleteOutcome(t, id) == (if t.rows[i].isActive then BadRequest else Done(id))
  {
    RowOfFinds(t.rows, id);
    forall i | 0 <= i < |t.rows| && t.rows[i].id == id
      ensures RowOf(t.rows, id) == Some(t.rows[i])
    {
      RowOfAt(t.rows, i);
    }
  }

  /** Deleting takes exactly an inactive row of that id out. */
  lemma DeleteMeaning(t: Table, i: nat)
    requires DistinctIds(t.rows) && i < |t.rows|
    ensures AfterDelete(t, t.rows[i].id) ==
      if t.rows[i].isActive then t else Table(t.rows[..i] + t.rows[i + 1..], t.nextId)
  {
    RowOfAt(t.rows, i);
    RemovedAt(t.rows, i);
  }

  lemma ActivateKeeps(t: Table, id: int, now: int)
    requires ValidTable(t)
    ensures ValidTable(AfterActivate(t, id, now))
    ensures SomeActive(t.rows) ==> SomeActive(AfterActivate(t, id, now).rows)
    ensures ActivateOutcome(t, id, now).Done? ==>
      ActiveRow(AfterActivate(t, id, now).rows) == Some(RowOf(t.rows, id).value.(isActive := true))
  {
    if ActivateOutcome(t, id, now).Done? {
      RowOfFinds(t.rows, id);
      var row := RowOf(t.rows, id).value;
      var i :| 0 <= i < |t.rows| && t.rows[i] == row;
      var rows := OnlyActive(t.rows, id);
      assert rows[i] == row.(isActive := true);
      ActiveRowIsTheOne(rows);
    }
  }

  lemma DeleteKeeps(t: Table, id: int)
    requires ValidTable(t)
    ensures ValidTable(AfterDelete(t, id)) && SomeActive(AfterDelete(t, id).rows) == SomeActive(t.rows)
  {
    if DeleteOutcome(t, id).Done? {
      RowOfFinds(t.rows, id);
      var row := RowOf(t.rows, id).value;
      var i :| 0 <= i < |t.rows| && t.rows[i] == row;
      RemovedAt(t.rows, i);
      RemovalKeeps(t.rows, i);
    }
  }

  class CaTable {
    var rows: seq<CaRow>
    var nextId: int

    function View(): Table
      reads this
    {
      Table(rows, nextId)
    }

    ghost predicate Valid()
      reads this
    {
      ValidTable(View())
    }

    constructor ()
      ensures Valid() && rows == []
    {
      rows, nextId := [], 1;
    }

    method Find(id: int) returns (i: int)
      ensures -1 <= i < |rows|
      ensures i >= 0 ==> rows[i].id == id
      ensures i == -1 ==> forall j :: 0 <= j < |rows| ==> rows[j].id != id
    {
      for k := 0 to |rows|
        invariant forall j :: 0 <= j < k ==> rows[j].id != id
      {
        if rows[k].id == id { return k; }
      }
      i := -1;
    }

    /** `_deactivate_others` */
    method DeactivateOthers(keep: int)
      modifies this`rows
      ensures rows == Deactivated(old(rows), keep)
    {
      ghost var before := rows;
      for k := 0 to |rows|
        invariant |rows| == |before|
        invariant forall i :: 0 <= i < |rows| ==>
          rows[i] == if i < k && before[i].id != keep then before[i].(isActive := false) else before[i]
      {
        if rows[k].id != keep {
          rows := rows[k := rows[k].(isActive := false)];
        }
      }
    }

    /** Inserts a row; a repeated name rolls back. An activated row deactivates the others. */
    method Insert(name: string, root: Root, activate: bool) returns (outcome: Outcome)
      requires Valid()
      modifies this
      ensures Valid() && View() == AfterInsert(old(View()), name, root, activate)
      ensures outcome == InsertOutcome(old(View()), name)
    {
      InsertKeeps(View(), name, root, activate);
      for k := 0 to |rows|
        invariant forall j :: 0 <= j < k ==> rows[j].name != name
      {
        if rows[k].name == name { return Conflict; }
      }
      var id := nextId;
      rows := rows + [CaRow(id, name, root.fingerprint, root.notAfter, activate)];
      nextId := nextId + 1;
      if activate {
        DeactivateOthers(id);
      }
      outcome := Done(id);
    }

    method Generate(name: string, root: Root, activate: bool) returns (outcome: Outcome)
      requires Valid()
      modifies this
      ensures Valid() && View() == AfterInsert(old(View()), name, root, activate)
      ensures outcome == InsertOutcome(old(View()), name)
      ensures SomeActive(old(rows)) ==> SomeActive(rows)
      ensures outcome.Done? && activate ==> ActiveRow(rows) == Some(CaRow(outcome.id, name, root.fingerprint, root.notAfter, true))
    {
      InsertKeeps(View(), name, root, activate);
      outcome := Insert(name, root, activate);
    }

    /** A bundle that does not parse, or has expired, is refused before anything is stored. */
    method Import(name: string, bundle: Option<Root>, activate: bool, now: int) returns (outcome: Outcome)
      requires Valid()
      modifies this
      ensures Valid() && View() == AfterImport(old(View()), name, bundle, activate, now)
      ensures outcome == if Importable(bundle, now) then InsertOutcome(old(View()), name) else Unprocessable
      ensures outcome == Unprocessable <==> bundle == None || bundle.value.notAfter < now
      ensures SomeActive(old(rows)) ==> SomeActive(rows)
      ensures outcome.Done? && activate ==>
        ActiveRow(rows) == Some(CaRow(outcome.id, name, bundle.value.fingerprint, bundle.value.notAfter, true))
    {
      if bundle == None { return Unprocessable; }
      if bundle.value.notAfter < now { return Unprocessable; }
      InsertKeeps(View(), name, bundle.value, activate);
      outcome := Insert(name, bundle.value, activate);
    }

    /** An unknown or expired authority is refused; otherwise it alone is active. */
    method Activate(id: int, now: int) returns (outcome: Outcome)
      requires Valid()
      modifies this
      ensures Valid() && View() == AfterActivate(old(View()), id, now)
      ensures outcome == ActivateOutcome(old(View()), id, now)
      ensures SomeActive(old(rows)) || outcome.Done? ==> SomeActive(rows)
    {
      ActivateKeeps(View(), id, now);
      RowOfFinds(rows, id);
      var i := Find(id);
      if i < 0 { return NotFound; }
      RowOfAt(rows, i);
      if rows[i].notAfter < now { return BadRequest; }
      ghost var before := rows;
      DeactivateOthers(id);
      rows := rows[i := rows[i].(isActive := true)];
      assert rows[i].isActive;
      assert rows == OnlyActive(before, id);
      outcome := Done(id);
    }

    /** An unknown or active authority is refused; otherwise exactly its row goes. */
    method Delete(id: int) returns (outcome: Outcome)
      requires Valid()
      modifies this
      ensures Valid() && View() == AfterDelete(old(View()), id)
      ensures outcome == DeleteOutcome(old(View()), id)
      ensures SomeActive(rows) == SomeActive(old(rows))
    {
      DeleteKeeps(View(), id);
      RowOfFinds(rows, id);
      var i := Find(id);
      if i < 0 { return NotFound; }
      RowOfAt(rows, i);
      if rows[i].isActive { return BadRequest; }
      RemovedAt(rows, i);
      rows := rows[..i] + rows[i + 1..];
      outcome := Done(id);
    }
  }

  // ------------------------------------------------------ control plane and proxy

  /** A step of the control plane, or of a proxy: read the table, apply an earlier read, serve a host. */
  datatype Op =
    | GenerateCa(name: string, root: Root, activate: bool)
    | ImportCa(name: string, bundle: Option<Root>, activate: bool, now: int)
    | ActivateCa(id: int, now: int)
    | DeleteCa(id: int)
    | ReadActive
    | ApplyRead(index: nat, leafKey: Option<nat>)
    | ServeHost(hostname: string)

  /** What is fixed about a proxy: its cache size and the host names it can make certificates for. */
  datatype Setting = Setting(cacheSize: nat, issuable: string -> bool)

  /**
   The table, a proxy, every row the proxy has read (or None), every context it has served,
   and the hosts served since its authority last changed.
   */
  datatype World = World(
    table: Table, provider: Provider,
    seen: seq<Option<CaRow>>, served: seq<Context>, hosts: seq<string>)

  function FingerprintOf(row: Option<CaRow>): Option<string> {
    match row case None => None case Some(r) => Some(r.fingerprint)
  }

  function Next(c: Setting, w: World, op: Op): World {
    match op
    case GenerateCa(name, root, activate) => w.(table := AfterInsert(w.table, name, root, activate))
    case ImportCa(name, bundle, activate, now) => w.(table := AfterImport(w.table, name, bundle, activate, now))
    case ActivateCa(id, now) => w.(table := AfterActivate(w.table, id, now))
    case DeleteCa(id) => w.(table := AfterDelete(w.table, id))
    case ReadActive => w.(seen := w.seen + [ActiveRow(w.table.rows)])
    case ApplyRead(k, leafKey) =>
      if k >= |w.seen| then w
      else
        var row := FingerprintOf(w.seen[k]);
        w.(provider := Loaded(w.provider, row, leafKey), hosts := if Swaps(w.provider, row, leafKey) then [] else w.hosts)
    case ServeHost(hostname) =>
      var r := Answered(w.provider, c.issuable, hostname);
      w.(provider := AfterServing(w.provider, c.cacheSize, c.issuable, hostname),
         served := if r.Serves? then w.served + [r.context] else w.served,
         hosts := ServedSince(w.provider, c.issuable, hostname, w.hosts))
  }

  /** After any interleaving of steps, with reads applied late and out of order. */
  function Run(c: Setting, w: World, ops: seq<Op>): World {
    if ops == [] then w else Next(c, Run(c, w, ops[..|ops| - 1]), ops[|ops| - 1])
  }

  /** A new proxy beside some table. */
  function Start(t: Table): World {
    World(t, EMPTY_PROVIDER, [], [], [])
  }

  /**
   At most one row is active; the cache is the recency list of the hosts served under the
   authority the proxy holds, and everything in it is that authority's.
   */
  ghost predicate Inv(c: Setting, w: World) {
    ValidTable(w.table) && Coherent(w.provider, c.cacheSize, w.hosts)
  }

  lemma NextInv(c: Setting, w: World, op: Op)
    requires Inv(c, w)
    ensures Inv(c, Next(c, w, op))
    ensures SomeActive(w.table.rows) ==> SomeActive(Next(c, w, op).table.rows)
  {
    match op {
      case GenerateCa(name, root, activate) => InsertKeeps(w.table, name, root, activate);
      case ImportCa(name, bundle, activate, now) =>
        if Importable(bundle, now) { InsertKeeps(w.table, name, bundle.value, activate); }
      case ActivateCa(id, now) => ActivateKeeps(w.table, id, now);
      case DeleteCa(id) => DeleteKeeps(w.table, id);
      case ReadActive =>
      case ApplyRead(k, leafKey) =>
        if k < |w.seen| { LoadCoherent(w.provider, c.cacheSize, w.hosts, FingerprintOf(w.seen[k]), leafKey); }
      case ServeHost(hostname) => ServeCoherent(w.provider, c.cacheSize, c.issuable, w.hosts, hostname);
    }
  }

  /** The invariant holds after every run, and an active authority never leaves the table without one. */
  lemma {:induction false} RunInv(c: Setting, t: Table, ops: seq<Op>)
    requires ValidTable(t)
    ensures Inv(c, Run(c, Start(t), ops))
    ensures SomeActive(t.rows) ==> SomeActive(Run(c, Start(t), ops).table.rows)
    decreases |ops|
  {
    if ops != [] {
      RunInv(c, t, ops[..|ops| - 1]);
      NextInv(c, Run(c, Start(t), ops[..|ops| - 1]), ops[|ops| - 1]);
    }
  }

  /** Step `k` of the run is a read that finds an active row with this fingerprint. */
  ghost predicate ReadAt(c: Setting, t: Table, ops: seq<Op>, k: nat, fingerprint: string) {
    && k < |ops| && ops[k].ReadActive?
    && exists row :: row in Run(c, Start(t), ops[..k]).table.rows && row.isActive && row.fingerprint == fingerprint
  }

  /** Some step of the run read this fingerprint off the active row. */
  ghost predicate WasActive(c: Setting, t: Table, ops: seq<Op>, fingerprint: string) {
    exists k: nat :: ReadAt(c, t, ops, k, fingerprint)
  }

  lemma WasActiveLater(c: Setting, t: Table, ops: seq<Op>, fingerprint: string)
    requires ops != [] && WasActive(c, t, ops[..|ops| - 1], fingerprint)
    ensures WasActive(c, t, ops, fingerprint)
  {
    var init := ops[..|ops| - 1];
    var k: nat :| ReadAt(c, t, init, k, fingerprint);
    assert init[..k] == ops[..k];
    assert ReadAt(c, t, ops, k, fingerprint);
  }

  lemma {:induction false} ActiveRowActive(rows: seq<CaRow>)
    ensures ActiveRow(rows).Some? ==> ActiveRow(rows).value.isActive && ActiveRow(rows).value in rows
  {
    if rows != [] { ActiveRowActive(rows[1..]); }
  }

  lemma ReadsNow(c: Setting, t: Table, ops: seq<Op>, row: CaRow)
    requires ops != [] && ops[|ops| - 1].ReadActive?
    requires ActiveRow(Run(c, Start(t), ops[..|ops| - 1]).table.rows) == Some(row)
    ensures WasActive(c, t, ops, row.fingerprint)
  {
    ActiveRowActive(Run(c, Start(t), ops[..|ops| - 1]).table.rows);
    assert ReadAt(c, t, ops, |ops| - 1, row.fingerprint);
  }

  /** The fingerprints that a run has read off the active row. */
  ghost function Known(c: Setting, t: Table, ops: seq<Op>): iset<string> {
    iset fingerprint | WasActive(c, t, ops, fingerprint)
  }

  /** What the proxy has read, the authority it holds and the contexts it has served are all known. */
  ghost predicate Authorised(known: iset<string>, w: World) {
    && (forall row :: row in w.seen && row.Some? ==> row.value.fingerprint in known)
    && (w.provider.forge.Some? ==> w.provider.forge.value.fingerprint in known)
    && (forall x :: x in w.served ==> x.forge.fingerprint in known)
  }

  lemma NextAuthorised(c: Setting, w: World, op: Op, known: iset<string>)
    requires Inv(c, w) && Authorised(known, w)
    requires op.ReadActive? && ActiveRow(w.table.rows).Some? ==> ActiveRow(w.table.rows).value.fingerprint in known
    ensures Authorised(known, Next(c, w, op))
  {
    if op.ApplyRead? && op.index < |w.seen| {
      assert w.seen[op.index] in w.seen;
    }
    if op.ServeHost? {
      ServeCoherent(w.provider, c.cacheSize, c.issuable, w.hosts, op.hostname);
    }
  }

  lemma KnownLater(c: Setting, t: Table, ops: seq<Op>)
    requires ops != []
    ensures Known(c, t, ops[..|ops| - 1]) <= Known(c, t, ops)
    ensures var w := Run(c, Start(t), ops[..|ops| - 1]);
      ops[|ops| - 1].ReadActive? && ActiveRow(w.table.rows).Some? ==>
        ActiveRow(w.table.rows).value.fingerprint in Known(c, t, ops)
  {
    forall fingerprint | WasActive(c, t, ops[..|ops| - 1], fingerprint)
      ensures WasActive(c, t, ops, fingerprint)
    {
      WasActiveLater(c, t, ops, fingerprint);
    }
    var row := ActiveRow(Run(c, Start(t), ops[..|ops| - 1]).table.rows);
    if ops[|ops| - 1].ReadActive? && row.Some? {
      ReadsNow(c, t, ops, row.value);
    }
  }

  /**
   Rotation coherence: whatever the interleaving, a proxy only ever holds an authority, and
   only ever serves contexts of authorities, that an earlier step read off the active row.
   */
  lemma {:induction false} RunAuthorised(c: Setting, t: Table, ops: seq<Op>)
    requires ValidTable(t)
    ensures Authorised(Known(c, t, ops), Run(c, Start(t), ops))
    decreases |ops|
  {
    if ops != [] {
      var init := ops[..|ops| - 1];
      RunAuthorised(c, t, init);
      RunInv(c, t, init);
      KnownLater(c, t, ops);
      NextAuthorised(c, Run(c, Start(t), init), ops[|ops| - 1], Known(c, t, ops));
    }
  }

  /** A context is served under the authority held at that moment, with the leaf key in the key file. */
  lemma ServedNow(c: Setting, t: Table, ops: seq<Op>, hostname: string)
    requires ValidTable(t)
    ensures var w := Run(c, Start(t), ops);
      var r := Answered(w.provider, c.issuable, hostname);
      && Next(c, w, ServeHost(hostname)).served == (if r.Serves? then w.served + [r.context] else w.served)
      && (r.Serves? ==> IsCurrent(w.provider, Entry(Lower(hostname), r.context)))
      && (r.NoActiveCa? <==> w.provider.forge == None)
  {
    RunInv(c, t, ops);
    var w := Run(c, Start(t), ops);
    ServeCoherent(w.provider, c.cacheSize, c.issuable, w.hosts, hostname);
  }

  lemma RunMore(c: Setting, w: World, ops: seq<Op>, op: Op)
    ensures Run(c, w, ops + [op]) == Next(c, Run(c, w, ops), op)
  {
    assert (ops + [op])[..|ops|] == ops;
  }

  /**
   At any point of any run with an authority held, a host that can be issued is served a
   context, which is then the most recent entry of a cache that has any room; served again at
   once it gets the same one.
   */
  lemma ServingServes(c: Setting, t: Table, ops: seq<Op>, hostname: string)
    requires ValidTable(t) && c.issuable(hostname) && Run(c, Start(t), ops).provider.forge.Some?
    ensures var w := Run(c, Start(t), ops);
      var u := Run(c, Start(t), ops + [ServeHost(hostname)]);
      && |u.served| == |w.served| + 1 && w.served <= u.served
      && Lower(u.served[|w.served|].host) == Lower(hostname)
    ensures c.cacheSize > 0 ==>
      var u := Run(c, Start(t), ops + [ServeHost(hostname)]);
      var served := u.served[|u.served| - 1];
      && u.provider.contexts != [] && u.provider.contexts[|u.provider.contexts| - 1] == Entry(Lower(hostname), served)
      && Next(c, u, ServeHost(hostname)).served == u.served + [served]
  {
    RunInv(c, t, ops);
    RunMore(c, Start(t), ops, ServeHost(hostname));
    var w := Run(c, Start(t), ops);
    AnsweredIff(w.provider, c.issuable, hostname);
    ServeCoherent(w.provider, c.cacheSize, c.issuable, w.hosts, hostname);
    if c.cacheSize > 0 {
      ServedAgain(w.provider, c.cacheSize, c.issuable, w.hosts, hostname);
    }
  }

  /** The proxy reads the table and applies what it read. */
  function ReadAndApply(c: Setting, w: World, leafKey: nat): World {
    Next(c, Next(c, w, ReadActive), ApplyRead(|w.seen|, Some(leafKey)))
  }

  lemma LoadedNow(p: Provider, cacheSize: nat, served: seq<string>, fingerprint: string, leafKey: nat)
    requires Coherent(p, cacheSize, served)
    ensures var q := Loaded(p, Some(fingerprint), Some(leafKey));
      q.forge.Some? && q.fingerprint == Some(fingerprint)
  {
  }

  lemma AppliedNow(c: Setting, w: World, leafKey: nat, row: CaRow)
    requires Inv(c, w) && ActiveRow(w.table.rows) == Some(row)
    ensures var u := ReadAndApply(c, w, leafKey);
      Inv(c, u) && u.provider.forge.Some? && u.provider.fingerprint == Some(row.fingerprint)
  {
    var read := w.(seen := w.seen + [Some(row)]);
    assert read == Next(c, w, ReadActive);
    assert read.seen[|w.seen|] == Some(row);
    LoadedNow(w.provider, c.cacheSize, w.hosts, row.fingerprint, leafKey);
    LoadCoherent(w.provider, c.cacheSize, w.hosts, Some(row.fingerprint), Some(leafKey));
  }

  lemma ServesHeld(c: Setting, w: World, hostname: string)
    requires Inv(c, w) && w.provider.forge.Some? && c.issuable(hostname)
    ensures var r := Answered(w.provider, c.issuable, hostname);
      r.Serves? && w.provider.fingerprint == Some(r.context.forge.fingerprint)
  {
    AnsweredIff(w.provider, c.issuable, hostname);
    ServeCoherent(w.provider, c.cacheSize, c.issuable, w.hosts, hostname);
  }

  /**
   Activation takes effect: from any state of any run, once a known authority that has not
   expired is activated and the proxy has read and applied the table, it serves that
   authority's contexts.
   */
  lemma ActivationTakesEffect(c: Setting, w: World, i: nat, now: int, leafKey: nat, hostname: string)
    requires Inv(c, w) && c.issuable(hostname)
    requires i < |w.table.rows| && w.table.rows[i].notAfter >= now
    ensures var row := w.table.rows[i];
      var u := ReadAndApply(c, Next(c, w, ActivateCa(row.id, now)), leafKey);
      var r := Answered(u.provider, c.issuable, hostname);
      r.Serves? && r.context.forge.fingerprint == row.fingerprint
  {
    var row := w.table.rows[i];
    RowOfAt(w.table.rows, i);
    ActivateKeeps(w.table, row.id, now);
    NextInv(c, w, ActivateCa(row.id, now));
    var v := Next(c, w, ActivateCa(row.id, now));
    AppliedNow(c, v, leafKey, row.(isActive := true));
    ServesHeld(c, ReadAndApply(c, v, leafKey), hostname);
  }

  lemma RunPrefix(c: Setting, w: World, ops: seq<Op>, k: nat)
    requires k < |ops|
    ensures Run(c, w, ops[..k + 1]) == Next(c, Run(c, w, ops[..k]), ops[k])
  {
    assert ops[..k + 1][..k] == ops[..k];
  }

  /** One step, carried out on the objects. */
  method RotateOnce(table: CaTable, provider: CertificateAuthorityProvider, op: Op,
                    seen0: seq<Option<CaRow>>, served0: seq<Context>)
    returns (seen: seq<Option<CaRow>>, served: seq<Context>)
    requires table.Valid() && provider.Valid()
    modifies table, provider
    ensures table.Valid() && provider.Valid()
    ensures World(table.View(), provider.View(), seen, served, provider.served) ==
      Next(Setting(provider.cacheSize, provider.issuable),
           World(old(table.View()), old(provider.View()), seen0, served0, old(provider.served)), op)
  {
    hide AfterInsert, AfterImport, AfterActivate, AfterDelete, Answered, AfterServing, ServedSince, Loaded, Coherent, ValidTable;
    seen, served := seen0, served0;
    var outcome: Outcome;
    match op {
      case GenerateCa(name, root, activate) => outcome := table.Generate(name, root, activate);
      case ImportCa(name, bundle, activate, now) => outcome := table.Import(name, bundle, activate, now);
      case ActivateCa(id, now) => outcome := table.Activate(id, now);
      case DeleteCa(id) => outcome := table.Delete(id);
      case ReadActive => seen := seen + [ActiveRow(table.rows)];
      case ApplyRead(index, leafKey) =>
        if index < |seen| {
          var ok := provider.Load(FingerprintOf(seen[index]), leafKey);
        }
      case ServeHost(hostname) =>
        var r := provider.ContextFor(hostname);
        if r.Serves? { served := served + [r.context]; }
    }
  }

  /** The objects go through the run that the steps describe. */
  method Rotate(table: CaTable, provider: CertificateAuthorityProvider, ops: seq<Op>)
    returns (seen: seq<Option<CaRow>>, served: seq<Context>)
    requires table.Valid() && provider.Valid() && provider.View() == EMPTY_PROVIDER && provider.served == []
    modifies table, provider
    ensures table.Valid() && provider.Valid()
    ensures World(table.View(), provider.View(), seen, served, provider.served) ==
      Run(Setting(provider.cacheSize, provider.issuable), Start(old(table.View())), ops)
  {
    ghost var c, start := Setting(provider.cacheSize, provider.issuable), Start(table.View());
    seen, served := [], [];
    for k := 0 to |ops|
      invariant table.Valid() && provider.Valid()
      invariant World(table.View(), provider.View(), seen, served, provider.served) == Run(c, start, ops[..k])
    {
      RunPrefix(c, start, ops, k);
      seen, served := RotateOnce(table, provider, ops[k], seen, served);
    }
    assert ops[..|ops|] == ops;
  }

  /** A proxy that reads the table and applies the read at once follows the active authority. */
  method Follow(table: CaTable, provider: CertificateAuthorityProvider, leafKey: nat)
    requires table.Valid() && provider.Valid()
    modifies provider
    ensures provider.Valid() && provider.View() == Loaded(old(provider.View()), FingerprintOf(ActiveRow(table.rows)), Some(leafKey))
    ensures forall i :: 0 <= i < |table.rows| && table.rows[i].isActive ==> provider.fingerprint == Some(table.rows[i].fingerprint)
    ensures !SomeActive(table.rows) ==> provider.View() == old(provider.View())
  {
    ActiveRowIsTheOne(table.rows);
    var row := ActiveRow(table.rows);
    var ok := provider.Load(FingerprintOf(row), Some(leafKey));
  }
}
