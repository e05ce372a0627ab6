/** What no session can break, whatever it runs: every key points to a row, and no address is there twice. */
module RowIntegrity {
  import opened Options
  import opened RowSecurity
  import opened RowStatements

  /** Where the key columns of the five tables point, by the migrations that add them. */
  function TargetOf(t: Table, c: Column): Option<Table> {
    match (t, c)
    case (Contacts, AccountId) => Some(Accounts)
    case (Contacts, SourceLeadId) => Some(Leads)
    case (Accounts, ParentAccountId) => Some(Accounts)
    case (Deals, AccountId) => Some(Accounts)
    case (Deals, SourceLeadId) => Some(Leads)
    case (Leads, ConvertedContactId) => Some(Contacts)
    case (Leads, ConvertedAccountId) => Some(Accounts)
    case (Leads, ConvertedDealId) => Some(Deals)
    case (Activities, ContactId) => Some(Contacts)
    case (Activities, AccountId) => Some(Accounts)
    case (Activities, DealId) => Some(Deals)
    case _ => None
  }

  ghost predicate PointsToRows(db: Database, t: Table, row: Row) {
    forall c :: c in row.refs && TargetOf(t, c).Some? ==> Has(db, RowId(TargetOf(t, c).value, row.refs[c]))
  }

  ghost predicate KeysHold(db: Database) {
    forall t, id :: t in db && id in db[t] ==> PointsToRows(db, t, db[t][id])
  }

  ghost predicate AddressesDiffer(db: Database) {
    Contacts in db ==> forall a, b :: a in db[Contacts] && b in db[Contacts] && a != b ==>
      Email in db[Contacts][a].values && Email in db[Contacts][b].values ==>
        db[Contacts][a].values[Email] != db[Contacts][b].values[Email]
  }

  /** The keys of the schema are exactly these; all but those of activities are cleared, not followed. */
  lemma KeysAreTargets(t: Table, c: Column)
    ensures forall key :: key in CRM_KEYS && key.table == t && key.column == c ==> TargetOf(t, c) == Some(key.target)
    ensures TargetOf(t, c).Some? ==>
              ForeignKey(t, c, TargetOf(t, c).value, if t.Activities? then Cascade else SetNull) in CRM_KEYS
  {
  }

  // ----- DELETE -----

  /** A row that points to one that goes goes too, or the column is cleared. */
  lemma FollowsOrIsCleared(db: Database, doomed: set<RowId>, t: Table, id: Id, c: Column)
    requires t in db && id in db[t] && c in db[t][id].refs && TargetOf(t, c).Some?
    requires RowId(TargetOf(t, c).value, db[t][id].refs[c]) in doomed
    ensures if t.Activities? then RowId(t, id) in Grow(CRM_KEYS, db, doomed)
            else IsSevered(CRM_KEYS, t, db[t][id], c, doomed)
  {
    var row := db[t][id];
    KeysAreTargets(t, c);
    var key := ForeignKey(t, c, TargetOf(t, c).value, if t.Activities? then Cascade else SetNull);
    hide CRM_KEYS, TargetOf;
    assert key in CRM_KEYS && RefOf(key, row) == Some(RowId(key.target, row.refs[c]));
    if t.Activities? { assert PointsInto(CRM_KEYS, Cascade, t, row, doomed); }
  }

  lemma RemainingPointsToRows(db: Database, doomed: set<RowId>, now: Clock, t: Table, id: Id)
    requires KeysHold(db) && Grow(CRM_KEYS, db, doomed) == doomed
    requires t in db && id in db[t] && RowId(t, id) !in doomed
    ensures PointsToRows(Without(CRM_KEYS, db, doomed, now), t, Without(CRM_KEYS, db, doomed, now)[t][id])
  {
    var row, next: Database := db[t][id], Without(CRM_KEYS, db, doomed, now);
    hide CRM_KEYS, TargetOf, Grow;
    assert PointsToRows(db, t, row);
    forall c | c in next[t][id].refs && TargetOf(t, c).Some?
      ensures Has(next, RowId(TargetOf(t, c).value, next[t][id].refs[c]))
    {
      assert c in row.refs && next[t][id].refs[c] == row.refs[c];
      var r := RowId(TargetOf(t, c).value, row.refs[c]);
      assert Has(db, r);
      if r in doomed { FollowsOrIsCleared(db, doomed, t, id, c); }
    }
  }

  lemma RemainingAddress(db: Database, doomed: set<RowId>, now: Clock, id: Id)
    requires Contacts in db && id in db[Contacts] && RowId(Contacts, id) !in doomed
    ensures var before, after := db[Contacts][id], Without(CRM_KEYS, db, doomed, now)[Contacts][id];
            (Email in after.values <==> Email in before.values)
            && (Email in before.values ==> after.values[Email] == before.values[Email])
  {
  }

  lemma DeleteKeeps(db: Database, doomed: set<RowId>, now: Clock)
    requires KeysHold(db) && AddressesDiffer(db) && Grow(CRM_KEYS, db, doomed) == doomed
    ensures KeysHold(Without(CRM_KEYS, db, doomed, now)) && AddressesDiffer(Without(CRM_KEYS, db, doomed, now))
  {
    var next: Database := Without(CRM_KEYS, db, doomed, now);
    hide CRM_KEYS, Grow, Severed;
    forall t, id | t in next && id in next[t] ensures PointsToRows(next, t, next[t][id]) {
      RemainingPointsToRows(db, doomed, now, t, id);
    }
    if Contacts in db {
      forall id | id in next[Contacts]
        ensures var before, after := db[Contacts][id], next[Contacts][id];
                (Email in after.values <==> Email in before.values)
                && (Email in before.values ==> after.values[Email] == before.values[Email])
      {
        RemainingAddress(db, doomed, now, id);
      }
    }
  }

  // ----- UPDATE -----

  lemma WrittenPointsToRows(db: Database, t: Table, before: Row, after: Row)
    requires PointsToRows(db, t, before) && !Dangles(CRM_KEYS, t, before, after, db)
    ensures PointsToRows(db, t, after)
  {
    hide CRM_KEYS, TargetOf;
    forall c | c in after.refs && TargetOf(t, c).Some? ensures Has(db, RowId(TargetOf(t, c).value, after.refs[c])) {
      KeysAreTargets(t, c);
      var key := ForeignKey(t, c, TargetOf(t, c).value, if t.Activities? then Cascade else SetNull);
      assert key in CRM_KEYS && RefOf(key, after) == Some(RowId(key.target, after.refs[c]));
    }
  }

  /** A table written in place still has its rows. */
  lemma RowsStay(db: Database, t: Table, rows: Rows, u: Table, row: Row)
    requires t in db && rows.Keys == db[t].Keys && PointsToRows(db, u, row)
    ensures PointsToRows(db[t := rows], u, row)
  {
  }

  predicate SameAddress(a: Row, b: Row) {
    Email in a.values && Email in b.values && a.values[Email] == b.values[Email]
  }

  lemma SameAddressClashes(a: Row, b: Row)
    ensures Clashes(CRM_UNIQUES, Contacts, a, b) <==> SameAddress(a, b)
  {
    if SameAddress(a, b) { assert UniqueKey(Contacts, Email) in CRM_UNIQUES; }
  }

  /** Of two rows that are written, the later one was checked against the earlier as written. */
  lemma WrittenAddressesDiffer(rows: Rows, ids: set<Id>, order: seq<Id>, new_: Id -> Row, a: Id, b: Id)
    requires forall id :: id in order <==> id in ids
    requires !Hits(CRM_UNIQUES, Contacts, rows, order, new_)
    requires a in rows && b in rows && a != b && a in ids
    ensures b !in ids ==> !SameAddress(new_(a), rows[b])
    ensures b in ids ==> !SameAddress(new_(a), new_(b))
  {
    hide Clashes, CRM_UNIQUES, SameAddress;
    var i :| 0 <= i < |order| && order[i] == a;
    if b !in ids {
      assert b !in order[..i];
      SameAddressClashes(new_(a), rows[b]);
    } else {
      var j :| 0 <= j < |order| && order[j] == b;
      SameAddressClashes(new_(a), new_(b));
      SameAddressClashes(new_(b), new_(a));
      SameAddressIsMutual(new_(a), new_(b));
      if j < i { assert order[..i][j] == b; } else { assert order[..j][i] == a; }
    }
  }

  lemma SameAddressIsMutual(a: Row, b: Row)
    ensures SameAddress(a, b) <==> SameAddress(b, a)
  {
  }

  lemma UpdatedAddressesDiffer(rows: Rows, ids: set<Id>, order: seq<Id>, new_: Id -> Row, a: Id, b: Id)
    requires forall id :: id in order <==> id in ids
    requires !Hits(CRM_UNIQUES, Contacts, rows, order, new_)
    requires a in rows && b in rows && a != b && !SameAddress(rows[a], rows[b])
    ensures !SameAddress(Updated(rows, ids, new_)[a], Updated(rows, ids, new_)[b])
  {
    hide Hits, SameAddress, CRM_UNIQUES;
    if a in ids { WrittenAddressesDiffer(rows, ids, order, new_, a, b); }
    if b in ids {
      WrittenAddressesDiffer(rows, ids, order, new_, b, a);
      if a in ids { SameAddressIsMutual(new_(a), new_(b)); } else { SameAddressIsMutual(rows[a], new_(b)); }
    }
  }

  lemma UpdateKeeps(srv: Server, guard: Guard, db: Database, t: Table, ids: set<Id>, new_: Id -> Row)
    requires srv.keys == CRM_KEYS && srv.uniques == CRM_UNIQUES && forall id :: id in srv.scan(ids) <==> id in ids
    requires KeysHold(db) && AddressesDiffer(db) && t in db && MayWrite(srv, guard, db, t, ids, new_)
    ensures KeysHold(db[t := Updated(db[t], ids, new_)]) && AddressesDiffer(db[t := Updated(db[t], ids, new_)])
  {
    hide CRM_KEYS, CRM_UNIQUES, Hits, Dangles, AcceptsNewRow, PointsToRows;
    var rows := Updated(db[t], ids, new_);
    var next: Database := db[t := rows];
    forall u, id | u in next && id in next[u] ensures PointsToRows(next, u, next[u][id]) {
      assert PointsToRows(db, u, db[u][id]);
      if u == t && id in ids { WrittenPointsToRows(db, t, db[t][id], new_(id)); }
      RowsStay(db, t, rows, u, next[u][id]);
    }
    if t == Contacts {
      forall a, b | a in rows && b in rows && a != b ensures !SameAddress(rows[a], rows[b]) {
        UpdatedAddressesDiffer(db[t], ids, srv.scan(ids), new_, a, b);
      }
    }
  }

  // ----- any run -----

  ghost predicate IsIntact(db: Database) { KeysHold(db) && AddressesDiffer(db) }

  /** Whatever the policies, the user and the statement: keys still point to rows, addresses still differ. */
  lemma StepKeepsIntact(srv: Server, guard: Guard, db: Database, stmt: Statement)
    requires srv.keys == CRM_KEYS && srv.uniques == CRM_UNIQUES && IsServer(srv) && IsIntact(db)
    ensures IsIntact(Step(srv, guard, db, stmt).1)
  {
    hide CRM_KEYS, CRM_UNIQUES, KeysHold, AddressesDiffer, MayWrite, Chosen, Visible, Without, NewRows;
    if stmt.table in db {
      match stmt
      case Select(_, _) =>
      case Update(_, _, _, _) =>
        var ids, new_ := Chosen(guard, db, stmt, ForUpdate), NewRows(Visible(guard, db), stmt);
        if MayWrite(srv, guard, db, stmt.table, ids, new_) { UpdateKeeps(srv, guard, db, stmt.table, ids, new_); }
      case Delete(_, _, _) =>
        var ids := Chosen(guard, db, stmt, ForDelete);
        ChosenAreRows(guard, db, stmt, ForDelete);
        DeleteKeeps(db, Doomed(srv.keys, db, RowIds(stmt.table, ids)), stmt.now);
    }
  }

  lemma {:induction false} RunKeepsIntact(srv: Server, guard: Guard, client: Client, db: Database,
                                          answers: seq<Outcome>, n: nat)
    requires srv.keys == CRM_KEYS && srv.uniques == CRM_UNIQUES && IsServer(srv) && IsIntact(db)
    ensures IsIntact(Run(srv, guard, client, db, answers, n).1)
    decreases n
  {
    hide IsIntact, Step, IsServer, CRM_KEYS, CRM_UNIQUES;
    if n > 0 && client(answers).Some? {
      var (answer, next) := Step(srv, guard, db, client(answers).value);
      StepKeepsIntact(srv, guard, db, client(answers).value);
      RunKeepsIntact(srv, guard, client, next, answers + [answer], n - 1);
    }
  }
}
