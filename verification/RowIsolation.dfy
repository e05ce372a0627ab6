/**
 * What row-level security keeps apart: the rows a session sees, the rows of others it can never
 * change, and exactly when the server's own keys reach past the policies.
 */
module RowIsolation {
  import opened Options
  import opened RowSecurity
  import opened RowStatements

  // ----- own rows and foreign rows -----

  function OwnRows(mine: Ownership, rows: Rows): Rows {
    map id | id in rows && mine(rows[id].owner) :: rows[id]
  }

  function ForeignRows(mine: Ownership, rows: Rows): Rows {
    map id | id in rows && !mine(rows[id].owner) :: rows[id]
  }

  function Own(mine: Ownership, db: Database): Database { map t | t in db :: OwnRows(mine, db[t]) }

  function Foreign(mine: Ownership, db: Database): Database { map t | t in db :: ForeignRows(mine, db[t]) }

  predicate IsDatabase(db: Database) { forall t :: t in db ==> t in RLS_TABLES }

  predicate ShowsOnly(mine: Ownership, answer: Outcome) {
    answer.Found? ==> forall id :: id in answer.rows ==> mine(answer.rows[id].owner)
  }

  predicate AllShowOnly(mine: Ownership, answers: seq<Outcome>) {
    forall k :: 0 <= k < |answers| ==> ShowsOnly(mine, answers[k])
  }

  lemma OneMoreShowsOnly(mine: Ownership, answers: seq<Outcome>, answer: Outcome)
    requires AllShowOnly(mine, answers) && ShowsOnly(mine, answer)
    ensures AllShowOnly(mine, answers + [answer])
  {
  }

  lemma VisibleIsOwn(guard: Guard, mine: Ownership, db: Database)
    requires GuardsBy(guard, mine) && IsDatabase(db)
    ensures Visible(guard, db) == Own(mine, db)
  {
    forall t | t in db ensures Visible(guard, db)[t] == Own(mine, db)[t] { }
  }

  lemma OwnOfOwn(mine: Ownership, db: Database)
    ensures Own(mine, Own(mine, db)) == Own(mine, db) && Own(mine, db).Keys == db.Keys
  {
    forall t | t in db ensures Own(mine, Own(mine, db))[t] == Own(mine, db)[t] { }
  }

  /** What a statement picks: own rows, by what can be said of own rows. */
  function Picked(mine: Ownership, db: Database, stmt: Statement): (ids: set<Id>)
    requires stmt.table in db
    ensures forall id :: id in ids ==> id in db[stmt.table] && mine(db[stmt.table][id].owner)
  {
    var own := Own(mine, db);
    set id | id in own[stmt.table] && stmt.where(own, id)
  }

  lemma ChosenIsPicked(guard: Guard, mine: Ownership, db: Database, stmt: Statement, command: Command)
    requires GuardsBy(guard, mine) && IsDatabase(db) && stmt.table in db
    ensures Chosen(guard, db, stmt, command) == Picked(mine, db, stmt)
  {
    VisibleIsOwn(guard, mine, db);
  }

  lemma PickedAlone(mine: Ownership, db: Database, stmt: Statement)
    requires stmt.table in db
    ensures stmt.table in Own(mine, db) && Picked(mine, Own(mine, db), stmt) == Picked(mine, db, stmt)
  {
    OwnOfOwn(mine, db);
  }

  // ----- what a DELETE does to the rows of others -----

  predicate IsTouched(keys: set<ForeignKey>, t: Table, id: Id, row: Row, doomed: set<RowId>) {
    RowId(t, id) in doomed || PointsInto(keys, SetNull, t, row, doomed)
  }

  /** Some row of another goes, or holds a key that is set to NULL. */
  predicate ReachesForeign(keys: set<ForeignKey>, mine: Ownership, db: Database, doomed: set<RowId>) {
    exists t, id :: t in db && id in db[t] && !mine(db[t][id].owner) && IsTouched(keys, t, id, db[t][id], doomed)
  }

  lemma SeveredExactly(keys: set<ForeignKey>, t: Table, row: Row, doomed: set<RowId>, time: string)
    ensures Severed(keys, t, row, doomed, time) == row <==> !PointsInto(keys, SetNull, t, row, doomed)
  {
    var severed := Severed(keys, t, row, doomed, time);
    if PointsInto(keys, SetNull, t, row, doomed) {
      var key :| key in keys && key.table == t && key.onDelete == SetNull
                 && RefOf(key, row).Some? && RefOf(key, row).value in doomed;
      assert IsSevered(keys, t, row, key.column, doomed);
      assert key.column !in severed.refs;
    } else {
      forall c | c in row.refs ensures c in severed.refs {
        assert forall key :: key in keys && key.table == t && key.column == c && key.onDelete.SetNull? ==>
            RefOf(key, row) == Some(RowId(key.target, row.refs[c]));
      }
      assert severed.refs == row.refs;
    }
  }

  lemma ForeignRowAfter(keys: set<ForeignKey>, mine: Ownership, db: Database, doomed: set<RowId>, now: Clock,
                        t: Table, id: Id)
    requires t in db && id in db[t] && !mine(db[t][id].owner)
    ensures var next := Without(keys, db, doomed, now);
            (id in Foreign(mine, next)[t] && Foreign(mine, next)[t][id] == db[t][id])
            <==> !IsTouched(keys, t, id, db[t][id], doomed)
  {
    SeveredExactly(keys, t, db[t][id], doomed, now(RowId(t, id)));
  }

  /** The rows of others stay exactly as they were if and only if none of them is reached. */
  lemma DeleteSparesExactly(keys: set<ForeignKey>, mine: Ownership, db: Database, doomed: set<RowId>, now: Clock)
    ensures Foreign(mine, Without(keys, db, doomed, now)) == Foreign(mine, db)
            <==> !ReachesForeign(keys, mine, db, doomed)
  {
    var before, after := Foreign(mine, db), Foreign(mine, Without(keys, db, doomed, now));
    if ReachesForeign(keys, mine, db, doomed) {
      var t, id :| t in db && id in db[t] && !mine(db[t][id].owner) && IsTouched(keys, t, id, db[t][id], doomed);
      ForeignRowAfter(keys, mine, db, doomed, now, t, id);
      assert id in before[t] && before[t][id] == db[t][id];
      assert after[t] != before[t];
    } else {
      forall t | t in db ensures after[t] == before[t] {
        forall id | id in before[t] ensures id in after[t] && after[t][id] == before[t][id] {
          ForeignRowAfter(keys, mine, db, doomed, now, t, id);
        }
        forall id | id in after[t] ensures id in before[t] { }
      }
    }
  }

  /**
   * What becomes of another's row that does not go: nothing, or keys of it turn NULL and it is
   * stamped. It never gains anything else.
   */
  predicate IsLess(before: Row, after: Row) {
    after == before ||
    (&& after.owner == before.owner && after.values - {UpdatedAt} == before.values - {UpdatedAt}
     && after.refs != before.refs
     && forall c :: c in after.refs ==> c in before.refs && after.refs[c] == before.refs[c])
  }

  ghost predicate ForeignOnlyLoses(mine: Ownership, db: Database, next: Database) {
    && next.Keys == db.Keys
    && forall t, id :: t in next && id in next[t] && !mine(next[t][id].owner) ==>
         id in db[t] && !mine(db[t][id].owner) && IsLess(db[t][id], next[t][id])
  }

  lemma NothingComesBack(a: map<Column, Id>, b: map<Column, Id>, c: map<Column, Id>)
    requires forall k :: k in b ==> k in a && b[k] == a[k]
    requires forall k :: k in c ==> k in b && c[k] == b[k]
    ensures c == a ==> b == a
  {
  }

  lemma LessThenLess(a: Row, b: Row, c: Row)
    requires IsLess(a, b) && IsLess(b, c)
    ensures IsLess(a, c)
  {
    NothingComesBack(a.refs, b.refs, c.refs);
  }

  lemma LosesThenLoses(mine: Ownership, a: Database, b: Database, c: Database)
    requires ForeignOnlyLoses(mine, a, b) && ForeignOnlyLoses(mine, b, c)
    ensures ForeignOnlyLoses(mine, a, c)
    ensures Foreign(mine, c) == Foreign(mine, a)
            <==> Foreign(mine, b) == Foreign(mine, a) && Foreign(mine, c) == Foreign(mine, b)
  {
    hide IsLess;
    forall t, id | t in c && id in c[t] && !mine(c[t][id].owner)
      ensures id in a[t] && !mine(a[t][id].owner) && IsLess(a[t][id], c[t][id])
    {
      LessThenLess(a[t][id], b[t][id], c[t][id]);
    }
    if Foreign(mine, c) == Foreign(mine, a) {
      forall t | t in a ensures Foreign(mine, b)[t] == Foreign(mine, a)[t] {
        forall id | id in Foreign(mine, b)[t] ensures id in Foreign(mine, a)[t] { }
        forall id | id in Foreign(mine, a)[t]
          ensures id in Foreign(mine, b)[t] && Foreign(mine, b)[t][id] == Foreign(mine, a)[t][id]
        {
          assert id in Foreign(mine, c)[t] && Foreign(mine, c)[t][id] == Foreign(mine, a)[t][id];
          LessBothWays(a[t][id], b[t][id], c[t][id]);
        }
      }
    }
  }

  lemma LessBothWays(a: Row, b: Row, c: Row)
    requires IsLess(a, b) && IsLess(b, c) && c == a
    ensures b == a
  {
    NothingComesBack(a.refs, b.refs, c.refs);
  }

  lemma SeveredIsLess(keys: set<ForeignKey>, t: Table, row: Row, doomed: set<RowId>, time: string)
    ensures IsLess(row, Severed(keys, t, row, doomed, time))
  {
  }

  lemma WithoutOnlyLoses(keys: set<ForeignKey>, mine: Ownership, db: Database, doomed: set<RowId>, now: Clock)
    ensures ForeignOnlyLoses(mine, db, Without(keys, db, doomed, now))
  {
    hide Severed, IsLess;
    var next: Database := Without(keys, db, doomed, now);
    forall t, id | t in next && id in next[t] && !mine(next[t][id].owner)
      ensures id in db[t] && !mine(db[t][id].owner) && IsLess(db[t][id], next[t][id])
    {
      SeveredIsLess(keys, t, db[t][id], doomed, now(RowId(t, id)));
      SeveredKeepsOwner(keys, t, db[t][id], doomed, now(RowId(t, id)));
    }
  }

  // ----- what an UPDATE does to them: nothing -----

  lemma UpdatedRows(mine: Ownership, rows: Rows, ids: set<Id>, new_: Id -> Row)
    requires forall id :: id in ids ==> id in rows && mine(rows[id].owner) && mine(new_(id).owner)
    ensures ForeignRows(mine, Updated(rows, ids, new_)) == ForeignRows(mine, rows)
    ensures OwnRows(mine, Updated(rows, ids, new_)) == Updated(OwnRows(mine, rows), ids, new_)
  {
    var next := Updated(rows, ids, new_);
    var others, still := ForeignRows(mine, rows), ForeignRows(mine, next);
    forall id ensures id in still <==> id in others { }
    forall id | id in others ensures still[id] == others[id] { }
    var own, after := OwnRows(mine, rows), OwnRows(mine, next);
    forall id ensures id in after <==> id in own { }
    forall id | id in own ensures after[id] == if id in ids then new_(id) else own[id] { }
    assert after == Updated(own, ids, new_);
  }

  /** Putting a table in place of another that has the same foreign rows. */
  lemma Replaced(mine: Ownership, db: Database, t: Table, rows: Rows)
    requires t in db && ForeignRows(mine, rows) == ForeignRows(mine, db[t])
    ensures Foreign(mine, db[t := rows]) == Foreign(mine, db)
    ensures Own(mine, db[t := rows]) == Own(mine, db)[t := OwnRows(mine, rows)]
  {
    hide OwnRows, ForeignRows;
    forall u | u in db ensures Foreign(mine, db[t := rows])[u] == Foreign(mine, db)[u] {
      assert Foreign(mine, db)[u] == ForeignRows(mine, db[u]);
    }
  }

  lemma SameForeignLosesNothing(mine: Ownership, db: Database, next: Database)
    requires next.Keys == db.Keys && Foreign(mine, next) == Foreign(mine, db)
    ensures ForeignOnlyLoses(mine, db, next)
  {
    forall t, id | t in next && id in next[t] && !mine(next[t][id].owner)
      ensures id in db[t] && !mine(db[t][id].owner) && IsLess(db[t][id], next[t][id])
    {
      assert id in Foreign(mine, next)[t] && Foreign(mine, next)[t][id] == next[t][id];
      assert id in Foreign(mine, db)[t];
    }
  }

  // ----- whether an UPDATE is refused, with the rows of others and without -----

  /** Refused whether the rows of others that clash are there or not. */
  predicate IsRefused(srv: Server, mine: Ownership, db: Database, t: Table, ids: set<Id>, new_: Id -> Row)
    requires t in db
  {
    || (exists id :: id in ids && id in db[t] && !mine(new_(id).owner))
    || (exists id :: id in ids && id in db[t] && !srv.allows(t, db[t][id], new_(id)))
    || (exists id :: id in ids && id in db[t] && Dangles(srv.keys, t, db[t][id], new_(id), db))
    || Hits(srv.uniques, t, OwnRows(mine, db[t]), srv.scan(ids), new_)
  }

  /** A new value stands in a unique column of another's row. */
  predicate HitsForeign(uniques: set<UniqueKey>, mine: Ownership, rows: Rows, t: Table, ids: set<Id>, new_: Id -> Row) {
    exists id, other :: id in ids && other in rows && !mine(rows[other].owner)
                        && Clashes(uniques, t, new_(id), rows[other])
  }

  predicate PointsAnewToForeign(keys: set<ForeignKey>, mine: Ownership, t: Table, before: Row, after: Row,
                                db: Database)
  {
    exists key :: key in keys && key.table == t && RefOf(key, after).Some? && RefOf(key, after) != RefOf(key, before)
                  && Has(db, RefOf(key, after).value)
                  && !mine(db[RefOf(key, after).value.table][RefOf(key, after).value.id].owner)
  }

  /** A key is changed to point to another's row. */
  predicate RefersToForeign(keys: set<ForeignKey>, mine: Ownership, db: Database, t: Table, ids: set<Id>,
                            new_: Id -> Row)
    requires t in db
  {
    exists id :: id in ids && id in db[t] && PointsAnewToForeign(keys, mine, t, db[t][id], new_(id), db)
  }

  lemma HitsByOwn(uniques: set<UniqueKey>, mine: Ownership, t: Table, rows: Rows, order: seq<Id>, new_: Id -> Row)
    requires Hits(uniques, t, OwnRows(mine, rows), order, new_)
    ensures Hits(uniques, t, rows, order, new_)
  {
    hide Clashes;
    var own := OwnRows(mine, rows);
    var k, other :| 0 <= k < |order| && other in own && other != order[k]
                    && Clashes(uniques, t, new_(order[k]), if other in order[..k] then new_(other) else own[other]);
    assert other in rows && own[other] == rows[other];
  }

  lemma HitsByForeign(uniques: set<UniqueKey>, mine: Ownership, t: Table, rows: Rows, ids: set<Id>, order: seq<Id>,
                      new_: Id -> Row)
    requires forall id :: id in order <==> id in ids
    requires forall id :: id in ids ==> id in rows && mine(rows[id].owner)
    requires HitsForeign(uniques, mine, rows, t, ids, new_)
    ensures Hits(uniques, t, rows, order, new_)
  {
    hide Clashes;
    var id, other :| id in ids && other in rows && !mine(rows[other].owner)
                     && Clashes(uniques, t, new_(id), rows[other]);
    assert id in order;
    var k :| 0 <= k < |order| && order[k] == id;
    assert other !in order[..k];
  }

  lemma HitsAny(uniques: set<UniqueKey>, mine: Ownership, t: Table, rows: Rows, ids: set<Id>, order: seq<Id>,
                new_: Id -> Row)
    requires forall id :: id in order <==> id in ids
    requires forall id :: id in ids ==> id in rows && mine(rows[id].owner)
    requires Hits(uniques, t, rows, order, new_)
    ensures Hits(uniques, t, OwnRows(mine, rows), order, new_) || HitsForeign(uniques, mine, rows, t, ids, new_)
  {
    hide Clashes;
    var k, other :| 0 <= k < |order| && other in rows && other != order[k]
                    && Clashes(uniques, t, new_(order[k]), if other in order[..k] then new_(other) else rows[other]);
    assert order[k] in ids;
    if mine(rows[other].owner) {
      assert other in OwnRows(mine, rows);
    } else {
      assert other !in order[..k];
    }
  }

  lemma HitsSplit(uniques: set<UniqueKey>, mine: Ownership, t: Table, rows: Rows, ids: set<Id>, order: seq<Id>,
                  new_: Id -> Row)
    requires forall id :: id in order <==> id in ids
    requires forall id :: id in ids ==> id in rows && mine(rows[id].owner)
    ensures Hits(uniques, t, rows, order, new_)
            <==> Hits(uniques, t, OwnRows(mine, rows), order, new_) || HitsForeign(uniques, mine, rows, t, ids, new_)
  {
    hide Hits, HitsForeign, OwnRows;
    if Hits(uniques, t, OwnRows(mine, rows), order, new_) {
      HitsByOwn(uniques, mine, t, rows, order, new_);
    } else if HitsForeign(uniques, mine, rows, t, ids, new_) {
      HitsByForeign(uniques, mine, t, rows, ids, order, new_);
    } else if Hits(uniques, t, rows, order, new_) {
      HitsAny(uniques, mine, t, rows, ids, order, new_);
    }
  }

  lemma DanglesSplit(keys: set<ForeignKey>, mine: Ownership, t: Table, before: Row, after: Row, db: Database)
    ensures Dangles(keys, t, before, after, Own(mine, db))
            <==> Dangles(keys, t, before, after, db) || PointsAnewToForeign(keys, mine, t, before, after, db)
  {
    forall r: RowId ensures Has(Own(mine, db), r) <==> Has(db, r) && mine(db[r.table][r.id].owner) { }
  }

  lemma MayWriteTogether(srv: Server, guard: Guard, mine: Ownership, db: Database, t: Table, ids: set<Id>,
                         new_: Id -> Row)
    requires IsServer(srv) && GuardsBy(guard, mine) && t in db && t in RLS_TABLES
    requires forall id :: id in ids ==> id in db[t] && mine(db[t][id].owner)
    ensures MayWrite(srv, guard, db, t, ids, new_)
            <==> !IsRefused(srv, mine, db, t, ids, new_) && !HitsForeign(srv.uniques, mine, db[t], t, ids, new_)
  {
    HitsSplit(srv.uniques, mine, t, db[t], ids, srv.scan(ids), new_);
    hide Hits, HitsForeign, Dangles, OwnRows;
    forall id ensures AcceptsNewRow(guard, t, new_(id)) <==> mine(new_(id).owner) { }
  }

  lemma MayWriteAlone(srv: Server, guard: Guard, mine: Ownership, db: Database, t: Table, ids: set<Id>, new_: Id -> Row)
    requires IsServer(srv) && GuardsBy(guard, mine) && t in db && t in RLS_TABLES
    requires forall id :: id in ids ==> id in db[t] && mine(db[t][id].owner)
    ensures t in Own(mine, db)
    ensures MayWrite(srv, guard, Own(mine, db), t, ids, new_)
            <==> !IsRefused(srv, mine, db, t, ids, new_) && !RefersToForeign(srv.keys, mine, db, t, ids, new_)
  {
    var own := Own(mine, db);
    forall id | id in ids ensures id in own[t] && own[t][id] == db[t][id] { }
    forall id | id in ids
      ensures Dangles(srv.keys, t, db[t][id], new_(id), own)
              <==> Dangles(srv.keys, t, db[t][id], new_(id), db)
                   || PointsAnewToForeign(srv.keys, mine, t, db[t][id], new_(id), db)
    {
      DanglesSplit(srv.keys, mine, t, db[t][id], new_(id), db);
    }
    assert own[t] == OwnRows(mine, db[t]);
    hide Hits, Dangles, PointsAnewToForeign, OwnRows, Own;
    forall id ensures AcceptsNewRow(guard, t, new_(id)) <==> mine(new_(id).owner) { }
  }

  // ----- one statement -----

  /** A DELETE whose keys reach no row of another; other statements need nothing. */
  ghost predicate SparesForeign(srv: Server, mine: Ownership, db: Database, stmt: Statement) {
    stmt.Delete? && stmt.table in db ==>
      (PickedAreRows(mine, db, stmt);
       !ReachesForeign(srv.keys, mine, db, Doomed(srv.keys, db, RowIds(stmt.table, Picked(mine, db, stmt)))))
  }

  lemma PickedAreRows(mine: Ownership, db: Database, stmt: Statement)
    requires stmt.table in db
    ensures RowIds(stmt.table, Picked(mine, db, stmt)) <= AllRows(db)
  {
  }

  /**
   * An UPDATE that is refused for what can be seen, or for which the rows of others make no
   * difference; other statements need nothing.
   */
  ghost predicate IgnoresForeign(srv: Server, mine: Ownership, db: Database, stmt: Statement) {
    stmt.Update? && stmt.table in db ==>
      var t, ids, new_ := stmt.table, Picked(mine, db, stmt), NewRows(Own(mine, db), stmt);
      IsRefused(srv, mine, db, t, ids, new_) ||
      (HitsForeign(srv.uniques, mine, db[t], t, ids, new_) <==> RefersToForeign(srv.keys, mine, db, t, ids, new_))
  }

  lemma SelectStep(srv: Server, guard: Guard, mine: Ownership, db: Database, stmt: Statement)
    requires GuardsBy(guard, mine) && IsDatabase(db) && stmt.Select? && stmt.table in db
    ensures var ids := Picked(mine, db, stmt);
            Step(srv, guard, db, stmt) == (Found(map id | id in ids :: Own(mine, db)[stmt.table][id]), db)
  {
    ChosenIsPicked(guard, mine, db, stmt, ForSelect);
    var ids, t := Picked(mine, db, stmt), stmt.table;
    assert (map id | id in ids :: db[t][id]) == map id | id in ids :: Own(mine, db)[t][id];
  }

  lemma UpdateWrites(srv: Server, guard: Guard, mine: Ownership, db: Database, stmt: Statement)
    requires GuardsBy(guard, mine) && IsDatabase(db) && stmt.Update? && stmt.table in db
    ensures var t, ids, new_ := stmt.table, Picked(mine, db, stmt), NewRows(Own(mine, db), stmt);
            Step(srv, guard, db, stmt)
            == if MayWrite(srv, guard, db, t, ids, new_) then (Changed(ids), db[t := Updated(db[t], ids, new_)])
               else (Failed, db)
  {
    ChosenIsPicked(guard, mine, db, stmt, ForUpdate);
    VisibleIsOwn(guard, mine, db);
    hide MayWrite, Picked, Own, Visible, Chosen, NewRows, Updated;
  }

  lemma UpdateStep(srv: Server, guard: Guard, mine: Ownership, db: Database, stmt: Statement)
    requires IsServer(srv) && GuardsBy(guard, mine) && IsDatabase(db) && stmt.Update? && stmt.table in db
    ensures var t, ids, new_ := stmt.table, Picked(mine, db, stmt), NewRows(Own(mine, db), stmt);
            Step(srv, guard, db, stmt)
            == if IsRefused(srv, mine, db, t, ids, new_) || HitsForeign(srv.uniques, mine, db[t], t, ids, new_)
               then (Failed, db) else (Changed(ids), db[t := Updated(db[t], ids, new_)])
  {
    var t, ids, new_ := stmt.table, Picked(mine, db, stmt), NewRows(Own(mine, db), stmt);
    ChosenIsPicked(guard, mine, db, stmt, ForUpdate);
    VisibleIsOwn(guard, mine, db);
    MayWriteTogether(srv, guard, mine, db, t, ids, new_);
    hide MayWrite, IsRefused, HitsForeign, Picked, Own, Visible, Chosen, NewRows, Updated;
  }

  lemma UpdateStepAlone(srv: Server, guard: Guard, mine: Ownership, db: Database, stmt: Statement)
    requires IsServer(srv) && GuardsBy(guard, mine) && IsDatabase(db) && stmt.Update? && stmt.table in db
    ensures var t, ids, new_ := stmt.table, Picked(mine, db, stmt), NewRows(Own(mine, db), stmt);
            t in Own(mine, db) && Step(srv, guard, Own(mine, db), stmt)
            == if IsRefused(srv, mine, db, t, ids, new_) || RefersToForeign(srv.keys, mine, db, t, ids, new_)
               then (Failed, Own(mine, db))
               else (Changed(ids), Own(mine, db)[t := Updated(OwnRows(mine, db[t]), ids, new_)])
  {
    var t, ids, new_ := stmt.table, Picked(mine, db, stmt), NewRows(Own(mine, db), stmt);
    var own := Own(mine, db);
    OwnOfOwn(mine, db);
    PickedAlone(mine, db, stmt);
    ChosenIsPicked(guard, mine, own, stmt, ForUpdate);
    VisibleIsOwn(guard, mine, own);
    MayWriteAlone(srv, guard, mine, db, t, ids, new_);
    assert own[t] == OwnRows(mine, db[t]);
    hide MayWrite, IsRefused, RefersToForeign, Picked, Own, Visible, Chosen, NewRows, Updated, OwnRows;
  }

  lemma DeleteStep(srv: Server, guard: Guard, mine: Ownership, db: Database, stmt: Statement)
    requires GuardsBy(guard, mine) && IsDatabase(db) && stmt.Delete? && stmt.table in db
    ensures RowIds(stmt.table, Picked(mine, db, stmt)) <= AllRows(db)
    ensures var ids := Picked(mine, db, stmt);
            Step(srv, guard, db, stmt)
            == (Changed(ids), Without(srv.keys, db, Doomed(srv.keys, db, RowIds(stmt.table, ids)), stmt.now))
  {
    ChosenIsPicked(guard, mine, db, stmt, ForDelete);
    PickedAreRows(mine, db, stmt);
    hide Picked, Chosen, Doomed, Without;
  }

  lemma GrownAlone(keys: set<ForeignKey>, mine: Ownership, db: Database, gone: set<RowId>, t: Table, id: Id)
    requires t in db && id in db[t] && mine(db[t][id].owner)
    ensures RowId(t, id) in Grow(keys, db, gone) <==> RowId(t, id) in Grow(keys, Own(mine, db), gone)
  {
    assert id in Own(mine, db)[t] && Own(mine, db)[t][id] == db[t][id];
  }

  /** What is set to NULL points to rows picked, for rows that go by cascade are pointed to by nobody. */
  lemma SeveredByPicked(keys: set<ForeignKey>, db: Database, gone: set<RowId>, t: Table, row: Row, column: Column)
    requires CascadesEnd(keys) && column in row.refs
    ensures IsSevered(keys, t, row, column, Grow(keys, db, gone)) <==> IsSevered(keys, t, row, column, gone)
  {
    if IsSevered(keys, t, row, column, Grow(keys, db, gone)) {
      var key :| key in keys && key.table == t && key.column == column && key.onDelete.SetNull?
                 && RowId(key.target, row.refs[column]) in Grow(keys, db, gone);
      assert RowId(key.target, row.refs[column]) in gone;
    }
  }

  lemma OwnRowAlone(keys: set<ForeignKey>, mine: Ownership, db: Database, gone: set<RowId>, t: Table, id: Id,
                    time: string)
    requires CascadesEnd(keys) && t in db && id in db[t] && mine(db[t][id].owner)
    ensures var together, alone := Grow(keys, db, gone), Grow(keys, Own(mine, db), gone);
            && (RowId(t, id) in together <==> RowId(t, id) in alone)
            && Severed(keys, t, db[t][id], together, time) == Severed(keys, t, db[t][id], alone, time)
  {
    GrownAlone(keys, mine, db, gone, t, id);
    var row := db[t][id];
    forall c | c in row.refs
      ensures IsSevered(keys, t, row, c, Grow(keys, db, gone))
              <==> IsSevered(keys, t, row, c, Grow(keys, Own(mine, db), gone))
    {
      SeveredByPicked(keys, db, gone, t, row, c);
      SeveredByPicked(keys, Own(mine, db), gone, t, row, c);
    }
  }

  /** The session's own rows fare the same whether or not the others are there. */
  lemma OwnAfterDelete(keys: set<ForeignKey>, mine: Ownership, db: Database, gone: set<RowId>, now: Clock)
    requires CascadesEnd(keys)
    ensures Own(mine, Without(keys, db, Grow(keys, db, gone), now))
         == Without(keys, Own(mine, db), Grow(keys, Own(mine, db), gone), now)
  {
    var a := Own(mine, Without(keys, db, Grow(keys, db, gone), now));
    var b := Without(keys, Own(mine, db), Grow(keys, Own(mine, db), gone), now);
    hide Grow, Severed, CascadesEnd;
    forall t | t in db ensures a[t] == b[t] {
      forall id | id in db[t] && mine(db[t][id].owner)
        ensures (id in a[t] <==> id in b[t]) && (id in a[t] ==> a[t][id] == b[t][id])
      {
        OwnRowAlone(keys, mine, db, gone, t, id, now(RowId(t, id)));
        SeveredKeepsOwner(keys, t, db[t][id], Grow(keys, db, gone), now(RowId(t, id)));
      }
      forall id ensures (id in a[t] ==> id in db[t] && mine(db[t][id].owner)) {
        if id in db[t] { SeveredKeepsOwner(keys, t, db[t][id], Grow(keys, db, gone), now(RowId(t, id))); }
      }
    }
  }

  lemma SeveredKeepsOwner(keys: set<ForeignKey>, t: Table, row: Row, doomed: set<RowId>, time: string)
    ensures Severed(keys, t, row, doomed, time).owner == row.owner
  {
  }

  lemma DeleteAlone(srv: Server, guard: Guard, mine: Ownership, db: Database, stmt: Statement)
    requires IsServer(srv) && GuardsBy(guard, mine) && IsDatabase(db) && stmt.Delete? && stmt.table in db
    ensures var (answer, next) := Step(srv, guard, db, stmt);
            Step(srv, guard, Own(mine, db), stmt) == (answer, Own(mine, next))
  {
    var own, gone := Own(mine, db), RowIds(stmt.table, Picked(mine, db, stmt));
    OwnOfOwn(mine, db);
    PickedAlone(mine, db, stmt);
    DeleteStep(srv, guard, mine, db, stmt);
    DeleteStep(srv, guard, mine, own, stmt);
    DoomedAtOneRemove(srv.keys, db, gone);
    DoomedAtOneRemove(srv.keys, own, gone);
    OwnAfterDelete(srv.keys, mine, db, gone, stmt.now);
  }

  /**
   * What a statement shows is the session's own. The rows of others never gain anything but an
   * update stamp, whatever the statement; they are untouched but for a DELETE, and for a DELETE
   * exactly when it spares them.
   */
  lemma StepSparesExactly(srv: Server, guard: Guard, mine: Ownership, db: Database, stmt: Statement)
    requires IsServer(srv) && GuardsBy(guard, mine) && IsDatabase(db)
    ensures var (answer, next) := Step(srv, guard, db, stmt);
            && ShowsOnly(mine, answer) && ForeignOnlyLoses(mine, db, next)
            && (Foreign(mine, next) == Foreign(mine, db) <==> SparesForeign(srv, mine, db, stmt))
  {
    if stmt.table in db {
      var ids := Picked(mine, db, stmt);
      match stmt
      case Select(_, _) => SelectStep(srv, guard, mine, db, stmt);
      case Update(_, _, _, _) =>
        UpdateStep(srv, guard, mine, db, stmt);
        var new_ := NewRows(Own(mine, db), stmt);
        if Step(srv, guard, db, stmt).0 != Failed {
          UpdatedRows(mine, db[stmt.table], ids, new_);
          Replaced(mine, db, stmt.table, Updated(db[stmt.table], ids, new_));
        }
        SameForeignLosesNothing(mine, db, Step(srv, guard, db, stmt).1);
      case Delete(_, _, _) =>
        DeleteStep(srv, guard, mine, db, stmt);
        var doomed := Doomed(srv.keys, db, RowIds(stmt.table, ids));
        DeleteSparesExactly(srv.keys, mine, db, doomed, stmt.now);
        WithoutOnlyLoses(srv.keys, mine, db, doomed, stmt.now);
    }
  }

  /** A statement does and says the same without the rows of others exactly when it ignores them. */
  lemma StepAloneExactly(srv: Server, guard: Guard, mine: Ownership, db: Database, stmt: Statement)
    requires IsServer(srv) && GuardsBy(guard, mine) && IsDatabase(db)
    ensures var (answer, next) := Step(srv, guard, db, stmt);
            var (answer', next') := Step(srv, guard, Own(mine, db), stmt);
            && (IgnoresForeign(srv, mine, db, stmt) ==> answer' == answer && next' == Own(mine, next))
            && (!IgnoresForeign(srv, mine, db, stmt) ==> answer' != answer)
  {
    OwnOfOwn(mine, db);
    if stmt.table in db {
      match stmt
      case Select(_, _) =>
        PickedAlone(mine, db, stmt);
        SelectStep(srv, guard, mine, db, stmt);
        SelectStep(srv, guard, mine, Own(mine, db), stmt);
      case Update(_, _, _, _) => UpdateAloneExactly(srv, guard, mine, db, stmt);
      case Delete(_, _, _) => DeleteAlone(srv, guard, mine, db, stmt);
    }
  }

  lemma UpdateAloneExactly(srv: Server, guard: Guard, mine: Ownership, db: Database, stmt: Statement)
    requires IsServer(srv) && GuardsBy(guard, mine) && IsDatabase(db) && stmt.Update? && stmt.table in db
    ensures var (answer, next) := Step(srv, guard, db, stmt);
            var (answer', next') := Step(srv, guard, Own(mine, db), stmt);
            && (IgnoresForeign(srv, mine, db, stmt) ==> answer' == answer && next' == Own(mine, next))
            && (!IgnoresForeign(srv, mine, db, stmt) ==> answer' != answer)
  {
    var t, ids, new_ := stmt.table, Picked(mine, db, stmt), NewRows(Own(mine, db), stmt);
    UpdateStep(srv, guard, mine, db, stmt);
    UpdateStepAlone(srv, guard, mine, db, stmt);
    if !IsRefused(srv, mine, db, t, ids, new_) {
      UpdatedRows(mine, db[t], ids, new_);
      Replaced(mine, db, t, Updated(db[t], ids, new_));
    }
  }

  // ----- runs -----

  ghost predicate SparesThroughout(srv: Server, guard: Guard, mine: Ownership, client: Client, db: Database,
                                   answers: seq<Outcome>, n: nat)
    decreases n
  {
    n == 0 || client(answers).None? ||
    var stmt := client(answers).value;
    var (answer, next) := Step(srv, guard, db, stmt);
    SparesForeign(srv, mine, db, stmt)
    && SparesThroughout(srv, guard, mine, client, next, answers + [answer], n - 1)
  }

  ghost predicate IgnoresThroughout(srv: Server, guard: Guard, mine: Ownership, client: Client, db: Database,
                                    answers: seq<Outcome>, n: nat)
    decreases n
  {
    n == 0 || client(answers).None? ||
    var stmt := client(answers).value;
    var (answer, next) := Step(srv, guard, db, stmt);
    IgnoresForeign(srv, mine, db, stmt)
    && IgnoresThroughout(srv, guard, mine, client, next, answers + [answer], n - 1)
  }

  lemma SparesNext(srv: Server, guard: Guard, mine: Ownership, client: Client, db: Database, answers: seq<Outcome>,
                   n: nat)
    ensures if n == 0 || client(answers).None? then
              Run(srv, guard, client, db, answers, n) == (answers, db)
              && SparesThroughout(srv, guard, mine, client, db, answers, n)
            else
              var stmt := client(answers).value;
              var (answer, next) := Step(srv, guard, db, stmt);
              && Run(srv, guard, client, db, answers, n) == Run(srv, guard, client, next, answers + [answer], n - 1)
              && (SparesThroughout(srv, guard, mine, client, db, answers, n)
                  <==> SparesForeign(srv, mine, db, stmt)
                       && SparesThroughout(srv, guard, mine, client, next, answers + [answer], n - 1))
  {
    hide Step, SparesForeign;
  }

  /** However long the run, nothing foreign is shown or gains; it stays untouched exactly if spared throughout. */
  lemma {:induction false} RunSparesExactly(srv: Server, guard: Guard, mine: Ownership, client: Client, db: Database,
                                            answers: seq<Outcome>, n: nat)
    requires IsServer(srv) && GuardsBy(guard, mine) && IsDatabase(db)
    requires AllShowOnly(mine, answers)
    ensures var (all, last) := Run(srv, guard, client, db, answers, n);
            && AllShowOnly(mine, all)
            && ForeignOnlyLoses(mine, db, last)
            && (Foreign(mine, last) == Foreign(mine, db)
                <==> SparesThroughout(srv, guard, mine, client, db, answers, n))
    decreases n
  {
    hide *;
    SparesNext(srv, guard, mine, client, db, answers, n);
    if n == 0 || client(answers).None? {
      SameForeignLosesNothing(mine, db, db);
    } else {
      var stmt := client(answers).value;
      var (answer, next) := Step(srv, guard, db, stmt);
      StepSparesExactly(srv, guard, mine, db, stmt);
      LosesIsDatabase(mine, db, next);
      OneMoreShowsOnly(mine, answers, answer);
      RunSparesExactly(srv, guard, mine, client, next, answers + [answer], n - 1);
      LosesThenLoses(mine, db, next, Run(srv, guard, client, db, answers, n).1);
    }
  }

  lemma LosesIsDatabase(mine: Ownership, db: Database, next: Database)
    requires IsDatabase(db) && ForeignOnlyLoses(mine, db, next)
    ensures IsDatabase(next)
  {
  }

  lemma {:induction false} RunExtends(srv: Server, guard: Guard, client: Client, db: Database, answers: seq<Outcome>,
                                      n: nat)
    ensures answers <= Run(srv, guard, client, db, answers, n).0
    decreases n
  {
    if n > 0 && client(answers).Some? {
      var (answer, next) := Step(srv, guard, db, client(answers).value);
      RunExtends(srv, guard, client, next, answers + [answer], n - 1);
    }
  }

  lemma StepKeepsDatabase(srv: Server, guard: Guard, mine: Ownership, db: Database, stmt: Statement)
    requires IsServer(srv) && GuardsBy(guard, mine) && IsDatabase(db)
    ensures IsDatabase(Step(srv, guard, db, stmt).1)
  {
    StepSparesExactly(srv, guard, mine, db, stmt);
    LosesIsDatabase(mine, db, Step(srv, guard, db, stmt).1);
  }

  /** Runs that have had different answers stay different. */
  lemma AnswersTell(srv: Server, guard: Guard, client: Client, a: Database, b: Database, answers: seq<Outcome>,
                    x: Outcome, y: Outcome, n: nat)
    requires x != y
    ensures Run(srv, guard, client, a, answers + [x], n).0 != Run(srv, guard, client, b, answers + [y], n).0
  {
    RunExtends(srv, guard, client, a, answers + [x], n);
    RunExtends(srv, guard, client, b, answers + [y], n);
    hide Run;
    var p, q := Run(srv, guard, client, a, answers + [x], n).0, Run(srv, guard, client, b, answers + [y], n).0;
    assert p[|answers|] == (answers + [x])[|answers|] == x && q[|answers|] == (answers + [y])[|answers|] == y;
  }

  lemma RunFirst(srv: Server, guard: Guard, client: Client, db: Database, answers: seq<Outcome>, n: nat)
    requires n > 0 && client(answers).Some?
    ensures var (answer, next) := Step(srv, guard, db, client(answers).value);
            Run(srv, guard, client, db, answers, n) == Run(srv, guard, client, next, answers + [answer], n - 1)
  {
    hide Step;
  }

  /** The run is the one that would be had without the rows of others. */
  ghost predicate RunsAlike(srv: Server, guard: Guard, mine: Ownership, client: Client, db: Database,
                            answers: seq<Outcome>, n: nat)
  {
    var (all, last) := Run(srv, guard, client, db, answers, n);
    Run(srv, guard, client, Own(mine, db), answers, n) == (all, Own(mine, last))
  }

  lemma RunsAlikeFirst(srv: Server, guard: Guard, mine: Ownership, client: Client, db: Database,
                       answers: seq<Outcome>, n: nat)
    requires IsServer(srv) && GuardsBy(guard, mine) && IsDatabase(db) && n > 0 && client(answers).Some?
    ensures var stmt := client(answers).value;
            var (answer, next) := Step(srv, guard, db, stmt);
            RunsAlike(srv, guard, mine, client, db, answers, n)
            <==> IgnoresForeign(srv, mine, db, stmt)
                 && RunsAlike(srv, guard, mine, client, next, answers + [answer], n - 1)
  {
    hide IgnoresForeign, GuardsBy, IsServer, Own, Step, Run, IsDatabase;
    var stmt := client(answers).value;
    var (answer, next) := Step(srv, guard, db, stmt);
    var (answer', next') := Step(srv, guard, Own(mine, db), stmt);
    StepAloneExactly(srv, guard, mine, db, stmt);
    RunFirst(srv, guard, client, db, answers, n);
    RunFirst(srv, guard, client, Own(mine, db), answers, n);
    if !IgnoresForeign(srv, mine, db, stmt) {
      AnswersTell(srv, guard, client, next, next', answers, answer, answer', n - 1);
    }
  }

  /** It is exactly when every statement on the way ignores them. */
  lemma {:induction false} RunAloneExactly(srv: Server, guard: Guard, mine: Ownership, client: Client, db: Database,
                                           answers: seq<Outcome>, n: nat)
    requires IsServer(srv) && GuardsBy(guard, mine) && IsDatabase(db)
    ensures RunsAlike(srv, guard, mine, client, db, answers, n)
            <==> IgnoresThroughout(srv, guard, mine, client, db, answers, n)
    decreases n
  {
    if n > 0 && client(answers).Some? {
      hide IgnoresForeign, GuardsBy, IsServer, Own, Step, Run, IsDatabase, RunsAlike;
      var (answer, next) := Step(srv, guard, db, client(answers).value);
      RunsAlikeFirst(srv, guard, mine, client, db, answers, n);
      StepKeepsDatabase(srv, guard, mine, db, client(answers).value);
      RunAloneExactly(srv, guard, mine, client, next, answers + [answer], n - 1);
    }
  }
}
