/**
 * SELECT, UPDATE and DELETE on the protected tables as the database server carries them out:
 * policies decide what a statement picks; unique keys, foreign keys and the actions on them are
 * the server's own and look at every row.
 */
module RowStatements {
  import opened Options
  import opened RowSecurity

  type Rows = map<Id, Row>

  type Database = map<Table, Rows>

  datatype RowId = RowId(table: Table, id: Id)

  // ----- the keys between the tables -----

  datatype Action = Cascade | SetNull

  /** `table.column REFERENCES target ON DELETE …` */
  datatype ForeignKey = ForeignKey(table: Table, column: Column, target: Table, onDelete: Action)

  const CRM_KEYS: set<ForeignKey> := {
    ForeignKey(Contacts, AccountId, Accounts, SetNull),
    ForeignKey(Contacts, SourceLeadId, Leads, SetNull),
    ForeignKey(Accounts, ParentAccountId, Accounts, SetNull),
    ForeignKey(Deals, AccountId, Accounts, SetNull),
    ForeignKey(Deals, SourceLeadId, Leads, SetNull),
    ForeignKey(Leads, ConvertedContactId, Contacts, SetNull),
    ForeignKey(Leads, ConvertedAccountId, Accounts, SetNull),
    ForeignKey(Leads, ConvertedDealId, Deals, SetNull),
    ForeignKey(Activities, ContactId, Contacts, Cascade),
    ForeignKey(Activities, AccountId, Accounts, Cascade),
    ForeignKey(Activities, DealId, Deals, Cascade)
  }

  datatype UniqueKey = UniqueKey(table: Table, column: Column)

  const CRM_UNIQUES: set<UniqueKey> := {UniqueKey(Contacts, Email)}

  /** No cascade removes rows that other keys point to: what a DELETE removes besides is at one remove. */
  ghost predicate CascadesEnd(keys: set<ForeignKey>) {
    forall k, l :: k in keys && l in keys && k.onDelete.Cascade? ==> l.target != k.table
  }

  lemma CrmCascadesEnd()
    ensures CascadesEnd(CRM_KEYS)
  {
  }

  /** Where a key column of a row points. */
  function RefOf(key: ForeignKey, row: Row): Option<RowId> {
    if key.column in row.refs then Some(RowId(key.target, row.refs[key.column])) else None
  }

  predicate Has(db: Database, r: RowId) { r.table in db && r.id in db[r.table] }

  function AllRows(db: Database): set<RowId> { set t, id | t in db && id in db[t] :: RowId(t, id) }

  predicate PointsInto(keys: set<ForeignKey>, action: Action, t: Table, row: Row, targets: set<RowId>) {
    exists key :: key in keys && key.table == t && key.onDelete == action
                  && RefOf(key, row).Some? && RefOf(key, row).value in targets
  }

  // ----- what a DELETE removes and clears -----

  /** The rows that go with `gone` by one cascade more. */
  function Grow(keys: set<ForeignKey>, db: Database, gone: set<RowId>): set<RowId> {
    gone + set t, id | t in db && id in db[t] && PointsInto(keys, Cascade, t, db[t][id], gone) :: RowId(t, id)
  }

  /** All rows that go, cascade after cascade. */
  function Doomed(keys: set<ForeignKey>, db: Database, gone: set<RowId>): (doomed: set<RowId>)
    requires gone <= AllRows(db)
    ensures gone <= doomed <= AllRows(db)
    ensures Grow(keys, db, doomed) == doomed
    decreases AllRows(db) - gone
  {
    var next := Grow(keys, db, gone);
    if next == gone then gone else Doomed(keys, db, next)
  }

  predicate IsSevered(keys: set<ForeignKey>, t: Table, row: Row, column: Column, doomed: set<RowId>)
    requires column in row.refs
  {
    exists key :: key in keys && key.table == t && key.column == column && key.onDelete.SetNull?
                  && RowId(key.target, row.refs[column]) in doomed
  }

  /** When each row is written, if it is. */
  type Clock = RowId -> string

  /** `set_updated_at()`: the five tables stamp every row that an UPDATE writes, also one by a key's own action. */
  function Stamped(row: Row, time: string): Row { row.(values := row.values[UpdatedAt := time]) }

  /** A row that stays, with the columns set to NULL that pointed to rows that go. */
  function Severed(keys: set<ForeignKey>, t: Table, row: Row, doomed: set<RowId>, time: string): Row {
    var refs := map c | c in row.refs && !IsSevered(keys, t, row, c, doomed) :: row.refs[c];
    if refs == row.refs then row else Stamped(row.(refs := refs), time)
  }

  function Remaining(keys: set<ForeignKey>, t: Table, rows: Rows, doomed: set<RowId>, now: Clock): Rows {
    map id | id in rows && RowId(t, id) !in doomed :: Severed(keys, t, rows[id], doomed, now(RowId(t, id)))
  }

  function Without(keys: set<ForeignKey>, db: Database, doomed: set<RowId>, now: Clock): Database {
    map t | t in db :: Remaining(keys, t, db[t], doomed, now)
  }

  // ----- what an UPDATE must meet -----

  predicate Clashes(uniques: set<UniqueKey>, t: Table, a: Row, b: Row) {
    exists u :: u in uniques && u.table == t && u.column in a.values && u.column in b.values
                && a.values[u.column] == b.values[u.column]
  }

  function Updated(rows: Rows, ids: set<Id>, new_: Id -> Row): Rows {
    map id | id in rows :: if id in ids then new_(id) else rows[id]
  }

  /**
   * A unique index is checked as each row is written: the `k`-th row of the statement against
   * those before it as they are by then and all others as they still are.
   */
  predicate Hits(uniques: set<UniqueKey>, t: Table, rows: Rows, order: seq<Id>, new_: Id -> Row) {
    exists k, other :: 0 <= k < |order| && other in rows && other != order[k]
                       && Clashes(uniques, t, new_(order[k]), if other in order[..k] then new_(other) else rows[other])
  }

  /** A key that the update changes points to no row at all. */
  predicate Dangles(keys: set<ForeignKey>, t: Table, before: Row, after: Row, db: Database) {
    exists key :: key in keys && key.table == t && RefOf(key, after).Some?
                  && RefOf(key, after) != RefOf(key, before) && !Has(db, RefOf(key, after).value)
  }

  // ----- statements -----

  /**
   * The schema as far as it bears on the three statements. `allows` is what a new row must meet by
   * itself (NOT NULL, CHECK, an owner in `users`); `scan` is the order in which rows are written.
   */
  datatype Server = Server(keys: set<ForeignKey>, uniques: set<UniqueKey>, allows: (Table, Row, Row) -> bool,
                           scan: set<Id> -> seq<Id>)

  ghost predicate IsServer(srv: Server) {
    CascadesEnd(srv.keys) && forall ids, id :: id in srv.scan(ids) <==> id in ids
  }

  /** The server of this repository's schema. */
  function CrmServer(allows: (Table, Row, Row) -> bool, scan: set<Id> -> seq<Id>): Server {
    Server(CRM_KEYS, CRM_UNIQUES, allows, scan)
  }

  function Visible(guard: Guard, db: Database): Database {
    map t | t in db :: map id | id in db[t] && guard(t, ForSelect, db[t][id]) :: db[t][id]
  }

  /** Conditions and new values may read everything the session can see; the clock is whatever it was. */
  datatype Statement =
    | Select(table: Table, where: (Database, Id) -> bool)
    | Update(table: Table, where: (Database, Id) -> bool, set_: (Database, Id) -> Row, now: Clock)
    | Delete(table: Table, where: (Database, Id) -> bool, now: Clock)

  datatype Outcome = Found(rows: Rows) | Changed(ids: set<Id>) | Failed

  /** The visible rows that the statement's own policies admit and its condition picks. */
  function Chosen(guard: Guard, db: Database, stmt: Statement, command: Command): set<Id>
    requires stmt.table in db
  {
    var seen := Visible(guard, db);
    set id | id in seen[stmt.table] && guard(stmt.table, command, seen[stmt.table][id]) && stmt.where(seen, id)
  }

  function NewRows(seen: Database, stmt: Statement): Id -> Row
    requires stmt.Update?
  {
    id => Stamped(stmt.set_(seen, id), stmt.now(RowId(stmt.table, id)))
  }

  /** An UPDATE policy without WITH CHECK checks new rows by its USING; so does the SELECT policy. */
  predicate AcceptsNewRow(guard: Guard, t: Table, row: Row) {
    guard(t, ForUpdate, row) && guard(t, ForSelect, row)
  }

  predicate MayWrite(srv: Server, guard: Guard, db: Database, t: Table, ids: set<Id>, new_: Id -> Row)
    requires t in db
  {
    && (forall id :: id in ids && id in db[t] ==>
          AcceptsNewRow(guard, t, new_(id)) && srv.allows(t, db[t][id], new_(id))
          && !Dangles(srv.keys, t, db[t][id], new_(id), db))
    && !Hits(srv.uniques, t, db[t], srv.scan(ids), new_)
  }

  function RowIds(t: Table, ids: set<Id>): set<RowId> { set id | id in ids :: RowId(t, id) }

  lemma ChosenAreRows(guard: Guard, db: Database, stmt: Statement, command: Command)
    requires stmt.table in db
    ensures RowIds(stmt.table, Chosen(guard, db, stmt, command)) <= AllRows(db)
  {
  }

  /** One statement. A failing one leaves everything as it was. */
  function Step(srv: Server, guard: Guard, db: Database, stmt: Statement): (Outcome, Database) {
    if stmt.table !in db then (Failed, db)
    else
      var t := stmt.table;
      var seen := Visible(guard, db);
      match stmt
      case Select(_, _) =>
        (Found(map id | id in Chosen(guard, db, stmt, ForSelect) :: db[t][id]), db)
      case Update(_, _, _, _) =>
        var ids := Chosen(guard, db, stmt, ForUpdate);
        var new_ := NewRows(seen, stmt);
        if MayWrite(srv, guard, db, t, ids, new_) then (Changed(ids), db[t := Updated(db[t], ids, new_)])
        else (Failed, db)
      case Delete(_, _, _) =>
        var ids := Chosen(guard, db, stmt, ForDelete);
        ChosenAreRows(guard, db, stmt, ForDelete);
        (Changed(ids), Without(srv.keys, db, Doomed(srv.keys, db, RowIds(t, ids)), stmt.now))
  }

  /** A client: what it sends next depends on the answers it got. */
  type Client = seq<Outcome> -> Option<Statement>

  function Run(srv: Server, guard: Guard, client: Client, db: Database, answers: seq<Outcome>, n: nat)
    : (seq<Outcome>, Database)
    decreases n
  {
    if n == 0 || client(answers).None? then (answers, db)
    else
      var (answer, next) := Step(srv, guard, db, client(answers).value);
      Run(srv, guard, client, next, answers + [answer], n - 1)
  }

  // ----- the rows a DELETE removes, by chains of cascading keys -----

  /** Each row of the chain holds a cascading key of the one before; the first is one of `gone`. */
  ghost predicate IsChain(keys: set<ForeignKey>, db: Database, gone: set<RowId>, chain: seq<RowId>) {
    && chain != [] && chain[0] in gone && (forall k :: 0 <= k < |chain| ==> Has(db, chain[k]))
    && forall k :: 0 < k < |chain| ==>
         PointsInto(keys, Cascade, chain[k].table, db[chain[k].table][chain[k].id], {chain[k - 1]})
  }

  ghost predicate IsReached(keys: set<ForeignKey>, db: Database, gone: set<RowId>, r: RowId) {
    exists chain :: IsChain(keys, db, gone, chain) && chain[|chain| - 1] == r
  }

  lemma {:induction false} ReachedIsDoomed(keys: set<ForeignKey>, db: Database, gone: set<RowId>, chain: seq<RowId>)
    requires gone <= AllRows(db) && IsChain(keys, db, gone, chain)
    ensures chain[|chain| - 1] in Doomed(keys, db, gone)
  {
    var doomed := Doomed(keys, db, gone);
    var n := |chain| - 1;
    if n > 0 {
      assert IsChain(keys, db, gone, chain[..n]);
      ReachedIsDoomed(keys, db, gone, chain[..n]);
      var r := chain[n];
      assert PointsInto(keys, Cascade, r.table, db[r.table][r.id], {chain[n - 1]});
      assert PointsInto(keys, Cascade, r.table, db[r.table][r.id], doomed);
      assert r in Grow(keys, db, doomed);
    }
  }

  /** All of `some` can be reached from `gone`. */
  ghost predicate AreReached(keys: set<ForeignKey>, db: Database, gone: set<RowId>, some: set<RowId>) {
    forall r :: r in some ==> IsReached(keys, db, gone, r)
  }

  lemma GrowIsReached(keys: set<ForeignKey>, db: Database, gone: set<RowId>, some: set<RowId>)
    requires AreReached(keys, db, gone, some)
    ensures AreReached(keys, db, gone, Grow(keys, db, some))
  {
    hide IsReached;
    forall r | r in Grow(keys, db, some) ensures IsReached(keys, db, gone, r) {
      if r !in some {
        var row := db[r.table][r.id];
        var key :| key in keys && key.table == r.table && key.onDelete == Cascade
                   && RefOf(key, row).Some? && RefOf(key, row).value in some;
        ReachedNext(keys, db, gone, RefOf(key, row).value, r);
      }
    }
  }

  lemma ReachedNext(keys: set<ForeignKey>, db: Database, gone: set<RowId>, s: RowId, r: RowId)
    requires IsReached(keys, db, gone, s) && Has(db, r) && PointsInto(keys, Cascade, r.table, db[r.table][r.id], {s})
    ensures IsReached(keys, db, gone, r)
  {
    hide PointsInto;
    var chain :| IsChain(keys, db, gone, chain) && chain[|chain| - 1] == s;
    var longer := chain + [r];
    forall k | 0 < k < |longer|
      ensures PointsInto(keys, Cascade, longer[k].table, db[longer[k].table][longer[k].id], {longer[k - 1]})
    {
      if k < |chain| { assert longer[k] == chain[k] && longer[k - 1] == chain[k - 1]; }
    }
    assert IsChain(keys, db, gone, longer) && longer[|longer| - 1] == r;
  }

  lemma {:induction false} DoomedFromReached(keys: set<ForeignKey>, db: Database, gone: set<RowId>, some: set<RowId>)
    requires some <= AllRows(db) && AreReached(keys, db, gone, some)
    ensures AreReached(keys, db, gone, Doomed(keys, db, some))
    decreases AllRows(db) - some
  {
    GrowIsReached(keys, db, gone, some);
    if Grow(keys, db, some) != some { DoomedFromReached(keys, db, gone, Grow(keys, db, some)); }
  }

  /** A DELETE removes exactly the rows that a chain of cascading keys leads to from one it picked. */
  lemma DoomedExactly(keys: set<ForeignKey>, db: Database, gone: set<RowId>, r: RowId)
    requires gone <= AllRows(db)
    ensures r in Doomed(keys, db, gone) <==> IsReached(keys, db, gone, r)
  {
    forall s | s in gone ensures IsReached(keys, db, gone, s) {
      assert IsChain(keys, db, gone, [s]) && [s][|[s]| - 1] == s;
    }
    DoomedFromReached(keys, db, gone, gone);
    if IsReached(keys, db, gone, r) {
      var chain :| IsChain(keys, db, gone, chain) && chain[|chain| - 1] == r;
      ReachedIsDoomed(keys, db, gone, chain);
    }
  }

  /** Where cascades end after one step, one step is all. */
  lemma DoomedAtOneRemove(keys: set<ForeignKey>, db: Database, gone: set<RowId>)
    requires CascadesEnd(keys) && gone <= AllRows(db)
    ensures Doomed(keys, db, gone) == Grow(keys, db, gone)
  {
    var next := Grow(keys, db, gone);
    forall t, id | t in db && id in db[t] && PointsInto(keys, Cascade, t, db[t][id], next)
      ensures PointsInto(keys, Cascade, t, db[t][id], gone)
    {
      var key :| key in keys && key.table == t && key.onDelete == Cascade
                 && RefOf(key, db[t][id]).Some? && RefOf(key, db[t][id]).value in next;
      assert RefOf(key, db[t][id]).value in gone;
    }
    assert Grow(keys, db, next) == next;
  }
}
