/** A session under the policies of migration 092 and the keys of this repository's schema. */
module RowSessions {
  import opened Options
  import opened RowSecurity
  import opened RowStatements
  import opened RowIsolation

  /** The order of writing is some order of the rows picked. */
  ghost predicate IsScan(scan: set<Id> -> seq<Id>) { forall ids, id :: id in scan(ids) <==> id in ids }

  lemma CrmIsServer(allows: (Table, Row, Row) -> bool, scan: set<Id> -> seq<Id>)
    requires IsScan(scan)
    ensures IsServer(CrmServer(allows, scan))
  {
    CrmCascadesEnd();
  }

  /**
   * Over any run of SELECT, UPDATE and DELETE statements that a session chooses from the answers it
   * has had: it is shown only rows of its own, and no row of another appears, changes owner or gains
   * a value. Those rows stay exactly as they were if and only if no DELETE on the way reaches one
   * over the keys; and everything it learns and does is what it would without them if and only if no
   * UPDATE on the way fares differently for them.
   */
  lemma SessionIsIsolated(allows: (Table, Row, Row) -> bool, scan: set<Id> -> seq<Id>,
                          security: map<Table, TableSecurity>, s: Session, client: Client, db: Database, n: nat)
    requires IsScan(scan) && HasPolicies(security, POLICIES) && IsDatabase(db)
    ensures var srv, guard := CrmServer(allows, scan), GuardOf(security, s);
            var (answers, last) := Run(srv, guard, client, db, [], n);
            && AllShowOnly(Mine(s), answers)
            && ForeignOnlyLoses(Mine(s), db, last)
            && (Foreign(Mine(s), last) == Foreign(Mine(s), db)
                <==> SparesThroughout(srv, guard, Mine(s), client, db, [], n))
            && (Run(srv, guard, client, Own(Mine(s), db), [], n) == (answers, Own(Mine(s), last))
                <==> IgnoresThroughout(srv, guard, Mine(s), client, db, [], n))
  {
    var srv, guard := CrmServer(allows, scan), GuardOf(security, s);
    CrmIsServer(allows, scan);
    MigratedGuard(security, s);
    RunSparesExactly(srv, guard, Mine(s), client, db, [], n);
    RunAloneExactly(srv, guard, Mine(s), client, db, [], n);
  }

  // ----- no valid user -----

  lemma NothingGone(keys: set<ForeignKey>, db: Database, now: Clock)
    ensures Without(keys, db, Doomed(keys, db, {}), now) == db
  {
    assert Grow(keys, db, {}) == {};
    forall t | t in db ensures Remaining(keys, t, db[t], {}, now) == db[t] {
      forall id | id in db[t] ensures Severed(keys, t, db[t][id], {}, now(RowId(t, id))) == db[t][id] {
        SeveredExactly(keys, t, db[t][id], {}, now(RowId(t, id)));
      }
    }
  }

  lemma NothingPicked(srv: Server, guard: Guard, mine: Ownership, db: Database, stmt: Statement)
    requires GuardsBy(guard, mine) && IsDatabase(db) && forall owner :: !mine(owner)
    ensures var (answer, next) := Step(srv, guard, db, stmt);
            next == db && (answer.Found? ==> answer.rows == map[]) && (answer.Changed? ==> answer.ids == {})
  {
    if stmt.table in db {
      var t := stmt.table;
      assert Picked(mine, db, stmt) == {};
      match stmt
      case Select(_, _) => SelectStep(srv, guard, mine, db, stmt);
      case Update(_, _, _, _) =>
        ChosenIsPicked(guard, mine, db, stmt, ForUpdate);
        assert Updated(db[t], {}, NewRows(Visible(guard, db), stmt)) == db[t];
      case Delete(_, _, _) =>
        DeleteStep(srv, guard, mine, db, stmt);
        assert RowIds(t, {}) == {};
        NothingGone(srv.keys, db, stmt.now);
    }
  }

  /** The setting unset, empty or no uuid: nothing is shown and nothing changes, whatever is run. */
  lemma {:induction false} UnknownUserTouchesNothing(srv: Server, security: map<Table, TableSecurity>, s: Session,
                                                     client: Client, db: Database, answers: seq<Outcome>, n: nat)
    requires HasPolicies(security, POLICIES) && IsDatabase(db)
    requires s.setting == None || s.setting == Some("") || s.parse(s.setting.value) == None
    requires forall k :: 0 <= k < |answers| ==> answers[k].Found? ==> answers[k].rows == map[]
    ensures var (all, last) := Run(srv, GuardOf(security, s), client, db, answers, n);
            last == db && forall k :: 0 <= k < |all| ==> all[k].Found? ==> all[k].rows == map[]
    decreases n
  {
    if n > 0 && client(answers).Some? {
      var guard := GuardOf(security, s);
      MigratedGuard(security, s);
      forall owner ensures !Mine(s)(owner) { }
      NothingPicked(srv, guard, Mine(s), db, client(answers).value);
      hide Step, GuardsBy;
      var answer := Step(srv, guard, db, client(answers).value).0;
      UnknownUserTouchesNothing(srv, security, s, client, db, answers + [answer], n - 1);
    }
  }

  // ----- one UPDATE -----

  predicate GivesAway(s: Session, row: Row) { row.owner.None? || row.owner != CurrentUser(s) }

  /**
   * A row picked would be given away, break a rule of its own or point to nothing, or a new value
   * meets a unique key, be it of a row the user cannot see.
   */
  predicate MustFail(srv: Server, s: Session, db: Database, t: Table, ids: set<Id>, new_: Id -> Row)
    requires t in db && forall id :: id in ids ==> id in db[t]
  {
    || (exists id :: id in ids && GivesAway(s, new_(id)))
    || (exists id :: id in ids && !srv.allows(t, db[t][id], new_(id)))
    || (exists id :: id in ids && Dangles(srv.keys, t, db[t][id], new_(id), db))
    || Hits(srv.uniques, t, db[t], srv.scan(ids), new_)
  }

  /**
   * A user's UPDATE fails, whole, exactly when it must; else it does what it says to the rows of the
   * user that it picks and to no other.
   */
  lemma UpdateFailsExactly(srv: Server, security: map<Table, TableSecurity>, s: Session, db: Database, stmt: Statement)
    requires HasPolicies(security, POLICIES) && IsDatabase(db)
    requires stmt.Update? && stmt.table in db && !IsAdmin(s)
    ensures var t, ids, new_ := stmt.table, Picked(Mine(s), db, stmt), NewRows(Own(Mine(s), db), stmt);
            Step(srv, GuardOf(security, s), db, stmt)
            == if MustFail(srv, s, db, t, ids, new_) then (Failed, db)
               else (Changed(ids), db[t := Updated(db[t], ids, new_)])
  {
    var ids, new_ := Picked(Mine(s), db, stmt), NewRows(Own(Mine(s), db), stmt);
    MigratedGuard(security, s);
    UpdateWrites(srv, GuardOf(security, s), Mine(s), db, stmt);
    hide Step, MayWrite, MustFail, GuardsBy, HasPolicies, GuardOf;
    UserMayWrite(srv, GuardOf(security, s), s, db, stmt.table, ids, new_);
  }

  lemma UserMayWrite(srv: Server, guard: Guard, s: Session, db: Database, t: Table, ids: set<Id>, new_: Id -> Row)
    requires GuardsBy(guard, Mine(s)) && t in db && t in RLS_TABLES && !IsAdmin(s)
    requires forall id :: id in ids ==> id in db[t]
    ensures MayWrite(srv, guard, db, t, ids, new_) <==> !MustFail(srv, s, db, t, ids, new_)
  {
    hide Dangles, Hits, IsAdmin, GivesAway;
    forall id ensures AcceptsNewRow(guard, t, new_(id)) <==> !GivesAway(s, new_(id)) {
      UserGivesAway(guard, s, t, new_(id));
    }
    hide AcceptsNewRow;
  }

  lemma UserGivesAway(guard: Guard, s: Session, t: Table, row: Row)
    requires GuardsBy(guard, Mine(s)) && t in RLS_TABLES && !IsAdmin(s)
    ensures AcceptsNewRow(guard, t, row) <==> !GivesAway(s, row)
  {
    assert guard(t, ForUpdate, row) == Mine(s)(row.owner);
    assert guard(t, ForSelect, row) == Mine(s)(row.owner);
  }

  /** An admin sees and picks from everything, and the policies refuse an admin no new row. */
  lemma AdminIsUnrestricted(srv: Server, security: map<Table, TableSecurity>, s: Session, db: Database, stmt: Statement)
    requires HasPolicies(security, POLICIES) && IsDatabase(db) && IsAdmin(s) && stmt.table in db
    ensures Visible(GuardOf(security, s), db) == db
    ensures forall c :: Chosen(GuardOf(security, s), db, stmt, c)
                     == set id | id in db[stmt.table] && stmt.where(db, id)
    ensures forall row :: AcceptsNewRow(GuardOf(security, s), stmt.table, row)
  {
    var guard := GuardOf(security, s);
    MigratedGuard(security, s);
    VisibleIsOwn(guard, Mine(s), db);
    forall t | t in db ensures Own(Mine(s), db)[t] == db[t] { }
    assert Own(Mine(s), db) == db;
    forall c ensures Chosen(guard, db, stmt, c) == set id | id in db[stmt.table] && stmt.where(db, id) {
      ChosenIsPicked(guard, Mine(s), db, stmt, c);
    }
    forall row ensures AcceptsNewRow(guard, stmt.table, row) {
      assert guard(stmt.table, ForUpdate, row) == Mine(s)(row.owner);
      assert guard(stmt.table, ForSelect, row) == Mine(s)(row.owner);
    }
  }

  // ----- where the keys reach past the policies -----

  type Values = map<Column, string>

  function AccountWithActivity(u: Uuid, v: Uuid, a: Values, b: Values): Database {
    map[Accounts := map[1 := Row(Some(u), map[], a)], Activities := map[2 := Row(Some(v), map[AccountId := 1], b)]]
  }

  lemma ActivityIsDoomed(u: Uuid, v: Uuid, a: Values, b: Values, gone: set<RowId>)
    requires gone <= AllRows(AccountWithActivity(u, v, a, b)) && RowId(Accounts, 1) in gone
    ensures RowId(Activities, 2) in Doomed(CRM_KEYS, AccountWithActivity(u, v, a, b), gone)
  {
    var db := AccountWithActivity(u, v, a, b);
    var doomed := Doomed(CRM_KEYS, db, gone);
    var key := ForeignKey(Activities, AccountId, Accounts, Cascade);
    assert key in CRM_KEYS && RefOf(key, db[Activities][2]) == Some(RowId(Accounts, 1));
    assert PointsInto(CRM_KEYS, Cascade, Activities, db[Activities][2], doomed);
    assert RowId(Activities, 2) in Grow(CRM_KEYS, db, doomed);
  }

  /** `DELETE FROM accounts WHERE id = 1` by its owner takes an activity of another user with it. */
  lemma CascadeReachesForeign(allows: (Table, Row, Row) -> bool, scan: set<Id> -> seq<Id>,
                              security: map<Table, TableSecurity>, s: Session, u: Uuid, v: Uuid,
                              a: Values, b: Values, now: Clock)
    requires IsScan(scan) && HasPolicies(security, POLICIES) && !IsAdmin(s) && CurrentUser(s) == Some(u) && u != v
    ensures var db, stmt := AccountWithActivity(u, v, a, b), Delete(Accounts, (_, id) => id == 1, now);
            var next := Step(CrmServer(allows, scan), GuardOf(security, s), db, stmt).1;
            2 !in next[Activities] && Foreign(Mine(s), next) != Foreign(Mine(s), db)
  {
    var srv, guard, db := CrmServer(allows, scan), GuardOf(security, s), AccountWithActivity(u, v, a, b);
    var stmt := Delete(Accounts, (_, id) => id == 1, now);
    MigratedGuard(security, s);
    hide GuardOf, HasPolicies;
    DeleteStep(srv, guard, Mine(s), db, stmt);
    hide Step, GuardsBy;
    var ids := Picked(Mine(s), db, stmt);
    assert 1 in Own(Mine(s), db)[Accounts];
    assert 1 in ids && RowId(Accounts, 1) in RowIds(Accounts, ids);
    var doomed := Doomed(CRM_KEYS, db, RowIds(Accounts, ids));
    ActivityIsDoomed(u, v, a, b, RowIds(Accounts, ids));
    hide Doomed, Picked, RowIds;
    assert 2 !in Without(CRM_KEYS, db, doomed, now)[Activities];
    assert 2 in Foreign(Mine(s), db)[Activities];
  }

  /** What a row becomes in an UPDATE of row 1 that keeps its owner. */
  function Change(u: Uuid, refs: map<Column, Id>, values: Values): (Database, Id) -> Row {
    (_, _) => Row(Some(u), refs, values)
  }

  function UpdateFirst(t: Table, set_: (Database, Id) -> Row, now: Clock): (stmt: Statement) {
    Update(t, (_, id) => id == 1, set_, now)
  }

  /** Row 1 of the table is the user's, and all else in it is another's. */
  ghost predicate OwnsTheFirst(mine: Ownership, db: Database, t: Table) {
    t in db && OwnRows(mine, db[t]).Keys == {1}
  }

  lemma PicksTheFirst(mine: Ownership, db: Database, t: Table, set_: (Database, Id) -> Row, now: Clock)
    requires OwnsTheFirst(mine, db, t)
    ensures Picked(mine, db, UpdateFirst(t, set_, now)) == {1}
  {
    hide OwnRows;
    assert Own(mine, db)[t] == OwnRows(mine, db[t]);
  }

  function TwoContacts(u: Uuid, v: Uuid, a: Values, b: Values): Database {
    map[Contacts := map[1 := Row(Some(u), map[], a), 2 := Row(Some(v), map[], b)]]
  }

  /** A lone row that stays its owner's and holds no keys is refused for nothing that can be seen. */
  lemma LoneRowIsFine(srv: Server, mine: Ownership, db: Database, t: Table, ids: set<Id>, new_: Id -> Row)
    requires t in db && forall id :: id in ids ==> mine(new_(id).owner) && new_(id).refs == map[]
    requires forall id :: id in ids && id in db[t] ==> srv.allows(t, db[t][id], new_(id))
    requires forall id, other :: id in ids && other in OwnRows(mine, db[t]) ==> other == id
    requires forall id :: id in srv.scan(ids) <==> id in ids
    ensures !IsRefused(srv, mine, db, t, ids, new_) && !RefersToForeign(srv.keys, mine, db, t, ids, new_)
  {
    hide Clashes, OwnRows;
    forall id | id in ids ensures !Dangles(srv.keys, t, Row(None, map[], map[]), new_(id), db) { }
    var order := srv.scan(ids);
    forall k, other | 0 <= k < |order| && other in OwnRows(mine, db[t]) ensures other == order[k] {
      assert order[k] in order;
    }
  }

  lemma OnlyForeignRefuses(srv: Server, guard: Guard, mine: Ownership, db: Database, stmt: Statement)
    requires IsServer(srv) && GuardsBy(guard, mine) && IsDatabase(db) && stmt.Update? && stmt.table in db
    requires var t, ids, new_ := stmt.table, Picked(mine, db, stmt), NewRows(Own(mine, db), stmt);
             && !IsRefused(srv, mine, db, t, ids, new_) && !RefersToForeign(srv.keys, mine, db, t, ids, new_)
             && HitsForeign(srv.uniques, mine, db[t], t, ids, new_)
    ensures Step(srv, guard, db, stmt).0 == Failed
    ensures Step(srv, guard, Own(mine, db), stmt).0 == Changed(Picked(mine, db, stmt))
  {
    hide *;
    UpdateStep(srv, guard, mine, db, stmt);
    UpdateStepAlone(srv, guard, mine, db, stmt);
  }

  /**
   * An UPDATE of one's own contact to the address of a hidden one fails, which it would not without
   * that one. The contacts have whatever other values there are; the new row is one the table takes.
   */
  lemma HiddenEmailRefuses(allows: (Table, Row, Row) -> bool, scan: set<Id> -> seq<Id>,
                           security: map<Table, TableSecurity>, s: Session, u: Uuid, v: Uuid,
                           a: Values, b: Values, now: Clock)
    requires IsScan(scan) && HasPolicies(security, POLICIES) && !IsAdmin(s) && CurrentUser(s) == Some(u) && u != v
    requires Email in b
    requires allows(Contacts, Row(Some(u), map[], a),
                    Stamped(Row(Some(u), map[], a[Email := b[Email]]), now(RowId(Contacts, 1))))
    ensures var srv, guard, db := CrmServer(allows, scan), GuardOf(security, s), TwoContacts(u, v, a, b);
            var stmt := UpdateFirst(Contacts, Change(u, map[], a[Email := b[Email]]), now);
            && Step(srv, guard, db, stmt).0 == Failed
            && Step(srv, guard, Own(Mine(s), db), stmt).0 == Changed({1})
  {
    var srv, guard, db := CrmServer(allows, scan), GuardOf(security, s), TwoContacts(u, v, a, b);
    var stmt := UpdateFirst(Contacts, Change(u, map[], a[Email := b[Email]]), now);
    CrmIsServer(allows, scan);
    MigratedGuard(security, s);
    var ids, new_ := Picked(Mine(s), db, stmt), NewRows(Own(Mine(s), db), stmt);
    OnlyTheFirst(s, u, v, a, b);
    PicksTheFirst(Mine(s), db, Contacts, Change(u, map[], a[Email := b[Email]]), now);
    hide GuardsBy, GuardOf, HasPolicies, IsServer, Own, Picked, IsRefused, RefersToForeign, Step;
    LoneRowIsFine(srv, Mine(s), db, Contacts, ids, new_);
    SameEmail(new_(1), db[Contacts][2]);
    assert HitsForeign(CRM_UNIQUES, Mine(s), db[Contacts], Contacts, ids, new_);
    OnlyForeignRefuses(srv, guard, Mine(s), db, stmt);
  }

  lemma OnlyTheFirst(s: Session, u: Uuid, v: Uuid, a: Values, b: Values)
    requires !IsAdmin(s) && CurrentUser(s) == Some(u) && u != v
    ensures OwnsTheFirst(Mine(s), TwoContacts(u, v, a, b), Contacts)
    ensures 2 in TwoContacts(u, v, a, b)[Contacts] && !Mine(s)(TwoContacts(u, v, a, b)[Contacts][2].owner)
  {
    var rows := OwnRows(Mine(s), TwoContacts(u, v, a, b)[Contacts]);
    assert 1 in rows && 2 !in rows;
  }

  lemma SameEmail(a: Row, b: Row)
    requires Email in a.values && Email in b.values && a.values[Email] == b.values[Email]
    ensures Clashes(CRM_UNIQUES, Contacts, a, b)
  {
    assert UniqueKey(Contacts, Email) in CRM_UNIQUES;
  }

  function DealAndAccount(u: Uuid, v: Uuid, a: Values, b: Values): Database {
    map[Deals := map[1 := Row(Some(u), map[], a)], Accounts := map[2 := Row(Some(v), map[], b)]]
  }

  lemma OnlyForeignLetsThrough(srv: Server, guard: Guard, mine: Ownership, db: Database, stmt: Statement)
    requires IsServer(srv) && GuardsBy(guard, mine) && IsDatabase(db) && stmt.Update? && stmt.table in db
    requires var t, ids, new_ := stmt.table, Picked(mine, db, stmt), NewRows(Own(mine, db), stmt);
             && !IsRefused(srv, mine, db, t, ids, new_) && RefersToForeign(srv.keys, mine, db, t, ids, new_)
             && !HitsForeign(srv.uniques, mine, db[t], t, ids, new_)
    ensures Step(srv, guard, db, stmt).0 == Changed(Picked(mine, db, stmt))
    ensures Step(srv, guard, Own(mine, db), stmt).0 == Failed
  {
    hide *;
    UpdateStep(srv, guard, mine, db, stmt);
    UpdateStepAlone(srv, guard, mine, db, stmt);
  }

  /** A deal keyed to an account that is there breaks no rule, whoever owns the account. */
  lemma KeyedDealIsFine(srv: Server, mine: Ownership, u: Uuid, v: Uuid, a: Values, b: Values, new_: Id -> Row)
    requires srv.keys == CRM_KEYS && srv.uniques == CRM_UNIQUES && mine(Some(u)) && !mine(Some(v))
    requires new_(1).owner == Some(u) && new_(1).refs == map[AccountId := 2]
    requires srv.allows(Deals, Row(Some(u), map[], a), new_(1))
    ensures var db := DealAndAccount(u, v, a, b);
            && !IsRefused(srv, mine, db, Deals, {1}, new_) && RefersToForeign(srv.keys, mine, db, Deals, {1}, new_)
            && !HitsForeign(srv.uniques, mine, db[Deals], Deals, {1}, new_)
  {
    var db := DealAndAccount(u, v, a, b);
    var key := ForeignKey(Deals, AccountId, Accounts, SetNull);
    assert key in CRM_KEYS && RefOf(key, new_(1)) == Some(RowId(Accounts, 2));
    assert PointsAnewToForeign(CRM_KEYS, mine, Deals, db[Deals][1], new_(1), db);
    forall x, y ensures !Clashes(CRM_UNIQUES, Deals, x, y) { }
    assert !Dangles(CRM_KEYS, Deals, db[Deals][1], new_(1), db);
  }

  /** An UPDATE that keys one's own deal to a hidden account succeeds, which it would not without that one. */
  lemma HiddenAccountLetsThrough(allows: (Table, Row, Row) -> bool, scan: set<Id> -> seq<Id>,
                                 security: map<Table, TableSecurity>, s: Session, u: Uuid, v: Uuid,
                                 a: Values, b: Values, now: Clock)
    requires IsScan(scan) && HasPolicies(security, POLICIES) && !IsAdmin(s) && CurrentUser(s) == Some(u) && u != v
    requires allows(Deals, Row(Some(u), map[], a),
                    Stamped(Row(Some(u), map[AccountId := 2], a), now(RowId(Deals, 1))))
    ensures var srv, guard, db := CrmServer(allows, scan), GuardOf(security, s), DealAndAccount(u, v, a, b);
            var stmt := UpdateFirst(Deals, Change(u, map[AccountId := 2], a), now);
            && Step(srv, guard, db, stmt).0 == Changed({1})
            && Step(srv, guard, Own(Mine(s), db), stmt).0 == Failed
  {
    var srv, guard, db := CrmServer(allows, scan), GuardOf(security, s), DealAndAccount(u, v, a, b);
    var stmt := UpdateFirst(Deals, Change(u, map[AccountId := 2], a), now);
    CrmIsServer(allows, scan);
    MigratedGuard(security, s);
    var new_ := NewRows(Own(Mine(s), db), stmt);
    assert 1 in OwnRows(Mine(s), db[Deals]);
    PicksTheFirst(Mine(s), db, Deals, Change(u, map[AccountId := 2], a), now);
    hide GuardsBy, GuardOf, HasPolicies, IsServer, Own, Picked, IsRefused, RefersToForeign, HitsForeign, Step;
    KeyedDealIsFine(srv, Mine(s), u, v, a, b, new_);
    OnlyForeignLetsThrough(srv, guard, Mine(s), db, stmt);
  }
}
