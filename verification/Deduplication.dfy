/** Migrations 145 and 072: duplicates resolved so that a unique index can be built. */
module Deduplication {
  import opened Options

  datatype Id = Id(uuid: int)

  // ----- 145: one active signal per account and type -----

  datatype Signal = Signal(account: Id, kind: string, detectedAt: int, clearedAt: Option<int>, details: string)

  type Signals = map<Id, Signal>

  predicate IsActive(rows: Signals, id: Id) { id in rows && rows[id].clearedAt.None? }

  predicate SameKey(a: Signal, b: Signal) { a.account == b.account && a.kind == b.kind }

  /** The partial unique index on (account_id, signal_type) WHERE cleared_at IS NULL. */
  predicate HasOneActive(rows: Signals) {
    forall a, b :: a in rows && b in rows && IsActive(rows, a) && IsActive(rows, b) && SameKey(rows[a], rows[b])
                   ==> a == b
  }

  /** No active signal of the same account and type was detected later. */
  predicate IsNewest(rows: Signals, id: Id) {
    IsActive(rows, id) &&
    forall other :: other in rows && IsActive(rows, other) && SameKey(rows[other], rows[id]) ==>
      rows[other].detectedAt <= rows[id].detectedAt
  }

  /** What the clean-up owes: every row still there, and of each group of active ones a newest left active. */
  ghost predicate IsCleaned(rows: Signals, next: Signals, now: int) {
    && next.Keys == rows.Keys
    && HasOneActive(next)
    && (forall id :: id in rows ==> next[id] == rows[id] || IsClearedNow(rows[id], next[id], now))
    && (forall id :: id in rows && IsActive(next, id) ==> IsNewest(rows, id))
    && (forall id :: id in rows && IsActive(rows, id) ==> IsKept(rows, next, id))
  }

  predicate IsClearedNow(row: Signal, next: Signal, now: int) {
    row.clearedAt.None? && next == row.(clearedAt := Some(now))
  }

  /** The group of an active signal keeps one. */
  ghost predicate IsKept(rows: Signals, next: Signals, id: Id)
    requires id in rows && next.Keys == rows.Keys
  {
    exists kept :: kept in rows && IsActive(next, kept) && SameKey(rows[kept], rows[id])
  }

  datatype GroupKey = GroupKey(account: Id, kind: string)

  function KeyOf(s: Signal): GroupKey { GroupKey(s.account, s.kind) }

  /** The choice has one entry for each group seen so far, a newest of those seen. */
  ghost predicate IsChoice(rows: Signals, seen: set<Id>, best: map<GroupKey, Id>) {
    && (forall k :: k in best ==> best[k] in seen && best[k] in rows && IsActive(rows, best[k])
                                  && KeyOf(rows[best[k]]) == k)
    && (forall id :: id in seen && id in rows && IsActive(rows, id) ==>
          KeyOf(rows[id]) in best && best[KeyOf(rows[id])] in rows
          && rows[id].detectedAt <= rows[best[KeyOf(rows[id])]].detectedAt)
  }

  class SignalTable {
    var rows: Signals

    constructor (rows: Signals) ensures this.rows == rows { this.rows := rows; }

    /** `SELECT DISTINCT ON (account_id, signal_type) id … ORDER BY …, detected_at DESC`; ties fall as they may. */
    method NewestActive() returns (best: map<GroupKey, Id>)
      ensures IsChoice(rows, rows.Keys, best)
    {
      best := map[];
      var todo := rows.Keys;
      while todo != {}
        invariant todo <= rows.Keys && IsChoice(rows, rows.Keys - todo, best)
        decreases todo
      {
        var id :| id in todo;
        if rows[id].clearedAt.None? {
          var k := KeyOf(rows[id]);
          if k !in best || rows[best[k]].detectedAt < rows[id].detectedAt {
            best := best[k := id];
          }
        }
        todo := todo - {id};
      }
    }

    /** The UPDATE, then the unique index; were the index refused, all would be rolled back. */
    method Up145(now: int) returns (ok: bool)
      modifies this
      ensures ok && IsCleaned(old(rows), rows, now)
    {
      var best := NewestActive();
      ChosenIsCleaned(rows, best, now);
      var next := Cleared(rows, best.Values, now);
      ok := HasOneActive(next);
      if ok { rows := next; }
    }
  }

  function Cleared(rows: Signals, kept: set<Id>, now: int): Signals {
    map id | id in rows ::
      if rows[id].clearedAt.None? && id !in kept then rows[id].(clearedAt := Some(now)) else rows[id]
  }

  lemma ChosenIsCleaned(rows: Signals, best: map<GroupKey, Id>, now: int)
    requires IsChoice(rows, rows.Keys, best)
    ensures IsCleaned(rows, Cleared(rows, best.Values, now), now)
  {
    var next := Cleared(rows, best.Values, now);
    forall id | id in rows && IsActive(next, id) ensures id == best[KeyOf(rows[id])] && IsNewest(rows, id) {
      assert id in best.Values;
      var k :| k in best && best[k] == id;
      forall other | other in rows && IsActive(rows, other) && SameKey(rows[other], rows[id])
        ensures rows[other].detectedAt <= rows[id].detectedAt
      {
        assert KeyOf(rows[other]) == k;
      }
    }
    forall a, b | a in rows && b in rows && IsActive(next, a) && IsActive(next, b) && SameKey(next[a], next[b])
      ensures a == b
    {
      assert KeyOf(rows[a]) == KeyOf(rows[b]);
    }
    forall id | id in rows && IsActive(rows, id) ensures IsKept(rows, next, id) {
      var k := KeyOf(rows[id]);
      assert best[k] in best.Values && KeyOf(rows[best[k]]) == k;
    }
  }

  /** Exactly one signal of each group that had an active one is left active. */
  lemma OneNewestStaysActive(rows: Signals, next: Signals, now: int, id: Id)
    requires IsCleaned(rows, next, now) && IsActive(rows, id)
    ensures exists kept :: IsNewest(rows, kept) && IsOneLeft(rows, next, id, kept)
  {
    hide IsNewest;
    assert IsKept(rows, next, id);
    var kept :| kept in rows && IsActive(next, kept) && SameKey(rows[kept], rows[id]);
    assert IsNewest(rows, kept) && next[kept] == rows[kept];
    forall other | other in rows && IsActive(next, other) && SameKey(rows[other], rows[id]) ensures other == kept {
      assert SameKey(next[other], next[kept]);
    }
    assert IsOneLeft(rows, next, id, kept);
  }

  ghost predicate IsOneLeft(rows: Signals, next: Signals, id: Id, kept: Id)
    requires id in rows && next.Keys == rows.Keys
  {
    && kept in rows && next[kept] == rows[kept] && IsActive(next, kept) && SameKey(rows[kept], rows[id])
    && forall other :: other in rows && IsActive(next, other) && SameKey(rows[other], rows[id]) ==> other == kept
  }

  /** Where the index already holds there is nothing to clean; so cleaning twice is cleaning once. */
  lemma CleaningAgainChangesNothing(rows: Signals, next: Signals, now: int)
    requires IsCleaned(rows, next, now)
    ensures HasOneActive(rows) ==> next == rows
    ensures forall later, last :: IsCleaned(next, last, later) ==> last == next
  {
    if HasOneActive(rows) { UniqueStays(rows, next, now); }
    forall later, last | IsCleaned(next, last, later) ensures last == next { UniqueStays(next, last, later); }
  }

  lemma UniqueStays(rows: Signals, next: Signals, now: int)
    requires IsCleaned(rows, next, now) && HasOneActive(rows)
    ensures next == rows
  {
    forall id | id in rows ensures next[id] == rows[id] {
      if IsActive(rows, id) {
        assert IsKept(rows, next, id);
        var kept :| kept in rows && IsActive(next, kept) && SameKey(rows[kept], rows[id]);
        assert IsActive(rows, kept);
      }
    }
  }

  // ----- 072: one organisation-wide budget -----

  datatype Budget = Budget(user: Option<Id>, monthlyLimit: int, createdAt: int)

  type Budgets = map<Id, Budget>

  predicate IsDefault(rows: Budgets, id: Id) { id in rows && rows[id].user.None? }

  /** The partial unique index WHERE user_id IS NULL. */
  predicate HasOneDefault(rows: Budgets) {
    forall a, b :: a in rows && b in rows && IsDefault(rows, a) && IsDefault(rows, b) ==> a == b
  }

  /** The partial unique index on user_id WHERE user_id IS NOT NULL. */
  predicate HasOnePerUser(rows: Budgets) {
    forall a, b :: a in rows && b in rows && rows[a].user.Some? && rows[a].user == rows[b].user ==> a == b
  }

  predicate IsEarliest(rows: Budgets, id: Id) {
    IsDefault(rows, id) && forall other :: other in rows && IsDefault(rows, other) ==>
      rows[id].createdAt <= rows[other].createdAt
  }

  /** The overrides and one earliest default row are left, as they were; no other row is. */
  ghost predicate IsReduced(rows: Budgets, next: Budgets) {
    && (forall id :: id in next ==> id in rows && next[id] == rows[id])
    && (forall id :: id in rows && rows[id].user.Some? ==> id in next)
    && (forall id :: id in next && IsDefault(next, id) ==> IsEarliest(rows, id))
    && ((exists id :: id in rows && IsDefault(rows, id)) ==> exists id :: id in next && IsDefault(next, id))
    && HasOneDefault(next)
  }

  class BudgetTable {
    var rows: Budgets

    constructor (rows: Budgets) ensures this.rows == rows { this.rows := rows; }

    /** `SELECT id … WHERE user_id IS NULL ORDER BY created_at ASC LIMIT 1` */
    method EarliestDefault() returns (earliest: Option<Id>)
      ensures earliest.None? ==> forall id :: id in rows ==> !IsDefault(rows, id)
      ensures earliest.Some? ==> IsEarliest(rows, earliest.value)
    {
      earliest := None;
      var todo := rows.Keys;
      while todo != {}
        invariant todo <= rows.Keys
        invariant earliest.None? ==> forall id :: id in rows && id !in todo ==> !IsDefault(rows, id)
        invariant earliest.Some? ==> IsDefault(rows, earliest.value)
        invariant earliest.Some? ==> forall id :: id in rows && id !in todo && IsDefault(rows, id) ==>
                    rows[earliest.value].createdAt <= rows[id].createdAt
        decreases todo
      {
        var id :| id in todo;
        if rows[id].user.None? && (earliest.None? || rows[id].createdAt < rows[earliest.value].createdAt) {
          earliest := Some(id);
        }
        todo := todo - {id};
      }
    }

    /** Fails, and changes nothing, exactly when some user has two overrides. */
    method Up072() returns (ok: bool)
      modifies this
      ensures ok <==> HasOnePerUser(old(rows))
      ensures !ok ==> rows == old(rows)
      ensures ok ==> IsReduced(old(rows), rows) && HasOnePerUser(rows)
    {
      var earliest := EarliestDefault();
      var next := map id | id in rows && (rows[id].user.Some? || Some(id) == earliest) :: rows[id];
      OnlyEarliestLeft(rows, earliest, next);
      ok := HasOnePerUser(next) && HasOneDefault(next);
      if ok { rows := next; }
    }
  }

  lemma OnlyEarliestLeft(rows: Budgets, earliest: Option<Id>, next: Budgets)
    requires earliest.None? ==> forall id :: id in rows ==> !IsDefault(rows, id)
    requires earliest.Some? ==> IsEarliest(rows, earliest.value)
    requires next == map id | id in rows && (rows[id].user.Some? || Some(id) == earliest) :: rows[id]
    ensures IsReduced(rows, next) && (HasOnePerUser(next) <==> HasOnePerUser(rows))
  {
    if earliest.Some? { assert earliest.value in next && IsDefault(next, earliest.value); }
    if HasOnePerUser(next) {
      forall a, b | a in rows && b in rows && rows[a].user.Some? && rows[a].user == rows[b].user ensures a == b {
        assert a in next && b in next;
      }
    }
  }

  /** Where there is at most one default row nothing is deleted; so reducing twice is reducing once. */
  lemma ReducingAgainChangesNothing(rows: Budgets, next: Budgets)
    requires IsReduced(rows, next)
    ensures HasOneDefault(rows) ==> next == rows
    ensures forall last :: IsReduced(next, last) ==> last == next
  {
    if HasOneDefault(rows) { OneDefaultStays(rows, next); }
    forall last | IsReduced(next, last) ensures last == next { OneDefaultStays(next, last); }
  }

  lemma OneDefaultStays(rows: Budgets, next: Budgets)
    requires IsReduced(rows, next) && HasOneDefault(rows)
    ensures next == rows
  {
    forall id | id in rows ensures id in next {
      if IsDefault(rows, id) {
        var kept :| kept in next && IsDefault(next, kept);
        assert IsDefault(rows, kept);
      }
    }
  }
}
