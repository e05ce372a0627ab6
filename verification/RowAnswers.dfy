/**
 * What a session is shown and what it writes, told by its setting, its user's role and the owners
 * of rows alone; and what every session leaves intact.
 */
module RowAnswers {
  import opened Options
  import opened RowSecurity
  import opened RowStatements
  import opened RowIsolation

  // ----- who may touch a row -----

  /** The setting of the session reads as this user. */
  predicate IsUser(s: Session, u: Uuid) {
    s.setting.Some? && s.setting.value != "" && s.parse(s.setting.value) == Some(u)
  }

  /** A user that is not listed has no role. */
  predicate HasRole(s: Session, u: Uuid, role: string) { u in s.roles && s.roles[u] == role }

  /** The migrated policies admit a user to the rows owned, and the role `admin` alone to all others. */
  lemma WhoMayTouch(security: TableSecurity, command: Command, s: Session, u: Uuid, row: Row)
    requires security == TableSecurity(true, true, POLICIES) && IsUser(s, u)
    ensures Admits(security, command, s, row) <==> HasRole(s, u, "admin") || row.owner == Some(u)
  {
    PoliciesAdmit(security, command, s, row);
  }

  /** Without a user they admit to nothing. */
  lemma NobodyMayTouch(security: TableSecurity, command: Command, s: Session, row: Row)
    requires security == TableSecurity(true, true, POLICIES)
    requires s.setting == None || s.setting == Some("") || s.parse(s.setting.value) == None
    ensures !Admits(security, command, s, row)
  {
    PoliciesAdmit(security, command, s, row);
  }

  // ----- one statement -----

  /** The rows a user works on: all of an admin's database, or those the user owns. */
  function SeenBy(u: Uuid, admin: bool, db: Database): Database {
    map t | t in db :: map id | id in db[t] && (admin || db[t][id].owner == Some(u)) :: db[t][id]
  }

  function PickedBy(seen: Database, stmt: Statement): set<Id>
    requires stmt.table in seen
  {
    set id | id in seen[stmt.table] && stmt.where(seen, id)
  }

  lemma MineIs(s: Session, u: Uuid, owner: Option<Uuid>)
    requires IsUser(s, u)
    ensures Mine(s)(owner) <==> HasRole(s, u, "admin") || owner == Some(u)
  {
  }

  lemma OwnIsSeen(s: Session, u: Uuid, db: Database)
    requires IsUser(s, u)
    ensures Own(Mine(s), db) == SeenBy(u, HasRole(s, u, "admin"), db)
  {
    forall t | t in db ensures Own(Mine(s), db)[t] == SeenBy(u, HasRole(s, u, "admin"), db)[t] {
      var own, seen := OwnRows(Mine(s), db[t]), SeenBy(u, HasRole(s, u, "admin"), db)[t];
      assert Own(Mine(s), db)[t] == own;
      forall id ensures id in own <==> id in seen {
        if id in db[t] { MineIs(s, u, db[t][id].owner); }
      }
      assert own == seen;
    }
  }

  lemma PickedIsPickedBy(s: Session, u: Uuid, db: Database, stmt: Statement)
    requires IsUser(s, u) && stmt.table in db
    ensures Picked(Mine(s), db, stmt) == PickedBy(SeenBy(u, HasRole(s, u, "admin"), db), stmt)
  {
    OwnIsSeen(s, u, db);
    hide HasRole, IsUser;
  }

  /** A SELECT finds exactly the rows of the user that it asks for, and changes nothing. */
  lemma SelectFinds(srv: Server, security: map<Table, TableSecurity>, s: Session, u: Uuid, db: Database,
                    stmt: Statement)
    requires HasPolicies(security, POLICIES) && IsDatabase(db) && IsUser(s, u) && stmt.Select? && stmt.table in db
    ensures var ids := PickedBy(SeenBy(u, HasRole(s, u, "admin"), db), stmt);
            && (forall id :: id in ids ==> id in db[stmt.table])
            && Step(srv, GuardOf(security, s), db, stmt) == (Found(map id | id in ids :: db[stmt.table][id]), db)
  {
    MigratedGuard(security, s);
    SelectStep(srv, GuardOf(security, s), Mine(s), db, stmt);
    PickedIsPickedBy(s, u, db, stmt);
    var ids := Picked(Mine(s), db, stmt);
    assert (map id | id in ids :: Own(Mine(s), db)[stmt.table][id]) == map id | id in ids :: db[stmt.table][id];
    hide Step, HasPolicies, HasRole, IsUser, SeenBy, PickedBy;
  }

  /** The row an UPDATE leaves where it picked one: what was set, with the time of writing. */
  predicate IsWritten(set_: Row, time: string, row: Row) {
    row.owner == set_.owner && row.refs == set_.refs && row.values == set_.values[UpdatedAt := time]
  }

  /** An UPDATE that does not fail writes exactly the rows of the user that it asks for, as it says; else none. */
  lemma UpdateWritesThese(srv: Server, security: map<Table, TableSecurity>, s: Session, u: Uuid, db: Database,
                          stmt: Statement)
    requires HasPolicies(security, POLICIES) && IsDatabase(db) && IsUser(s, u) && stmt.Update? && stmt.table in db
    ensures var t, seen := stmt.table, SeenBy(u, HasRole(s, u, "admin"), db);
            var ids := PickedBy(seen, stmt);
            var (answer, next) := Step(srv, GuardOf(security, s), db, stmt);
            && next.Keys == db.Keys && (forall other :: other in db && other != t ==> next[other] == db[other])
            && next[t].Keys == db[t].Keys
            && (answer == Failed ==> next == db)
            && (answer != Failed ==> answer == Changed(ids) && forall id :: id in db[t] ==>
                  if id in ids then IsWritten(stmt.set_(seen, id), stmt.now(RowId(t, id)), next[t][id])
                  else next[t][id] == db[t][id])
  {
    MigratedGuard(security, s);
    UpdateWrites(srv, GuardOf(security, s), Mine(s), db, stmt);
    PickedIsPickedBy(s, u, db, stmt);
    OwnIsSeen(s, u, db);
    hide Step, MayWrite, HasPolicies, HasRole, IsUser, SeenBy, PickedBy, Picked, Own;
  }

  // ----- one DELETE -----

  /** A key of the row that the server clears points to a row that goes. */
  ghost predicate LosesTarget(keys: set<ForeignKey>, db: Database, gone: set<RowId>, t: Table, row: Row, c: Column)
    requires c in row.refs
  {
    exists key :: key in keys && key.table == t && key.column == c && key.onDelete.SetNull?
                  && IsReached(keys, db, gone, RowId(key.target, row.refs[c]))
  }

  /** What a DELETE leaves of a row that stays: without those keys, and stamped if there were any; else as it was. */
  ghost predicate IsLeft(keys: set<ForeignKey>, db: Database, gone: set<RowId>, t: Table, before: Row, after: Row,
                         time: string)
  {
    && after.owner == before.owner
    && (forall c :: c in after.refs <==> c in before.refs && !LosesTarget(keys, db, gone, t, before, c))
    && (forall c :: c in after.refs ==> after.refs[c] == before.refs[c])
    && after.values == if after.refs.Keys == before.refs.Keys then before.values else before.values[UpdatedAt := time]
  }

  lemma SeveredLosesTarget(keys: set<ForeignKey>, db: Database, gone: set<RowId>, t: Table, row: Row, c: Column)
    requires gone <= AllRows(db) && c in row.refs
    ensures IsSevered(keys, t, row, c, Doomed(keys, db, gone)) <==> LosesTarget(keys, db, gone, t, row, c)
  {
    hide IsReached, Doomed, AllRows;
    forall key | key in keys && key.column == c
      ensures RowId(key.target, row.refs[c]) in Doomed(keys, db, gone)
              <==> IsReached(keys, db, gone, RowId(key.target, row.refs[c]))
    {
      DoomedExactly(keys, db, gone, RowId(key.target, row.refs[c]));
    }
  }

  lemma SeveredIs(keys: set<ForeignKey>, t: Table, row: Row, doomed: set<RowId>, time: string)
    ensures var after := Severed(keys, t, row, doomed, time);
            && after.owner == row.owner
            && (forall c :: c in after.refs <==> c in row.refs && !IsSevered(keys, t, row, c, doomed))
            && (forall c :: c in after.refs ==> after.refs[c] == row.refs[c])
            && after.values == if after.refs.Keys == row.refs.Keys then row.values else row.values[UpdatedAt := time]
  {
    hide IsSevered;
    var refs := map c | c in row.refs && !IsSevered(keys, t, row, c, doomed) :: row.refs[c];
    assert refs.Keys == row.refs.Keys ==> refs == row.refs;
  }

  lemma SeveredIsLeft(keys: set<ForeignKey>, db: Database, gone: set<RowId>, t: Table, row: Row, time: string)
    requires gone <= AllRows(db)
    ensures IsLeft(keys, db, gone, t, row, Severed(keys, t, row, Doomed(keys, db, gone), time), time)
  {
    hide IsSevered, LosesTarget, Doomed, AllRows, Severed;
    SeveredIs(keys, t, row, Doomed(keys, db, gone), time);
    forall c | c in row.refs
      ensures IsSevered(keys, t, row, c, Doomed(keys, db, gone)) <==> LosesTarget(keys, db, gone, t, row, c)
    {
      SeveredLosesTarget(keys, db, gone, t, row, c);
    }
  }

  lemma RowRemains(keys: set<ForeignKey>, db: Database, gone: set<RowId>, now: Clock, t: Table, id: Id)
    requires gone <= AllRows(db) && t in db && id in db[t]
    ensures var next := Without(keys, db, Doomed(keys, db, gone), now);
            && next.Keys == db.Keys && next[t].Keys <= db[t].Keys
            && (id in next[t] <==> RowId(t, id) !in Doomed(keys, db, gone))
            && (id in next[t] ==> IsLeft(keys, db, gone, t, db[t][id], next[t][id], now(RowId(t, id))))
  {
    SeveredIsLeft(keys, db, gone, t, db[t][id], now(RowId(t, id)));
    hide Severed, IsLeft, Doomed;
  }

  /** A DELETE picks the rows of the user that it asks for; what goes with them, and what is cleared, the keys say. */
  lemma DeleteTakesThese(srv: Server, security: map<Table, TableSecurity>, s: Session, u: Uuid, db: Database,
                         stmt: Statement, t: Table, id: Id)
    requires HasPolicies(security, POLICIES) && IsDatabase(db) && IsUser(s, u) && stmt.Delete? && stmt.table in db
    requires t in db && id in db[t]
    ensures var ids := PickedBy(SeenBy(u, HasRole(s, u, "admin"), db), stmt);
            var (answer, next) := Step(srv, GuardOf(security, s), db, stmt);
            && answer == Changed(ids) && next.Keys == db.Keys && next[t].Keys <= db[t].Keys
            && (id !in next[t] <==> IsReached(srv.keys, db, RowIds(stmt.table, ids), RowId(t, id)))
            && (id in next[t] ==> IsLeft(srv.keys, db, RowIds(stmt.table, ids), t, db[t][id], next[t][id],
                                         stmt.now(RowId(t, id))))
  {
    MigratedGuard(security, s);
    PickedIsPickedBy(s, u, db, stmt);
    DeleteStep(srv, GuardOf(security, s), Mine(s), db, stmt);
    var gone := RowIds(stmt.table, Picked(Mine(s), db, stmt));
    hide *;
    DoomedExactly(srv.keys, db, gone, RowId(t, id));
    RowRemains(srv.keys, db, gone, stmt.now, t, id);
  }

  // ----- under any policies -----

  function CommandOf(stmt: Statement): Command {
    match stmt
    case Select(_, _) => ForSelect
    case Update(_, _, _, _) => ForUpdate
    case Delete(_, _, _) => ForDelete
  }

  /** Where a protected table has no policy for the command, it picks no row, for an admin neither. */
  lemma WithoutPolicyNothingIsPicked(security: map<Table, TableSecurity>, s: Session, db: Database, stmt: Statement)
    requires stmt.table in db && stmt.table in security && security[stmt.table].enabled
    requires forall k :: 0 <= k < |security[stmt.table].policies| ==>
               security[stmt.table].policies[k].command != CommandOf(stmt)
    ensures Chosen(GuardOf(security, s), db, stmt, CommandOf(stmt)) == {}
  {
    forall row ensures !GuardOf(security, s)(stmt.table, CommandOf(stmt), row) { }
  }

  /** A statement that picks nothing changes nothing. */
  lemma PickingNothingChangesNothing(srv: Server, guard: Guard, db: Database, stmt: Statement)
    requires stmt.table in db && Chosen(guard, db, stmt, CommandOf(stmt)) == {}
    ensures Step(srv, guard, db, stmt).1 == db
  {
    if stmt.Update? {
      var new_ := NewRows(Visible(guard, db), stmt);
      assert Updated(db[stmt.table], {}, new_) == db[stmt.table];
      assert db[stmt.table := db[stmt.table]] == db;
    } else if stmt.Delete? {
      assert RowIds(stmt.table, {}) == {};
      assert Grow(srv.keys, db, {}) == {};
      NothingIsSevered(srv.keys, db, stmt.now);
    }
  }

  lemma NothingIsSevered(keys: set<ForeignKey>, db: Database, now: Clock)
    ensures Without(keys, db, {}, now) == db
  {
    forall t | t in db ensures Remaining(keys, t, db[t], {}, now) == db[t] {
      forall id | id in db[t] ensures Severed(keys, t, db[t][id], {}, now(RowId(t, id))) == db[t][id] {
        var row := db[t][id];
        assert (map c | c in row.refs && !IsSevered(keys, t, row, c, {}) :: row.refs[c]) == row.refs;
      }
    }
  }

  /** A row that an UPDATE picked is still shown to the session afterwards, under whatever policies. */
  lemma UpdatedRowsStayInSight(srv: Server, guard: Guard, db: Database, stmt: Statement)
    requires stmt.table in db && stmt.Update?
    ensures var (answer, next) := Step(srv, guard, db, stmt);
            answer.Changed? ==> stmt.table in next && answer.ids <= Visible(guard, next)[stmt.table].Keys
  {
  }

  // ----- any run of a user without the admin role -----

  predicate AllOwnedBy(u: Uuid, answers: seq<Outcome>) {
    forall k, id :: 0 <= k < |answers| && answers[k].Found? && id in answers[k].rows ==>
      answers[k].rows[id].owner == Some(u)
  }

  /** Over any run, whatever role the user has but `admin`, every row shown is owned by that user. */
  lemma UserIsShownOwnRowsAlone(srv: Server, security: map<Table, TableSecurity>, s: Session, u: Uuid, client: Client,
                                db: Database, n: nat)
    requires IsServer(srv) && HasPolicies(security, POLICIES) && IsDatabase(db)
    requires IsUser(s, u) && !HasRole(s, u, "admin")
    ensures AllOwnedBy(u, Run(srv, GuardOf(security, s), client, db, [], n).0)
  {
    MigratedGuard(security, s);
    RunSparesExactly(srv, GuardOf(security, s), Mine(s), client, db, [], n);
    var answers := Run(srv, GuardOf(security, s), client, db, [], n).0;
    hide Run, HasPolicies;
    forall k, id | 0 <= k < |answers| && answers[k].Found? && id in answers[k].rows
      ensures answers[k].rows[id].owner == Some(u)
    {
      assert ShowsOnly(Mine(s), answers[k]);
      assert Mine(s)(answers[k].rows[id].owner);
    }
  }
}
