/** Migration 093: the audit log, split into monthly partitions around the current month. */
module AuditPartitions {

  // ----- time -----

  /** A moment on the session's calendar; `time` is the time of day in microseconds. */
  datatype Stamp = Stamp(year: nat, month: nat, day: nat, time: nat)

  predicate IsLeap(year: nat) { year % 4 == 0 && (year % 100 != 0 || year % 400 == 0) }

  function DaysIn(year: nat, month: nat): nat {
    if month == 2 then (if IsLeap(year) then 29 else 28)
    else if month == 4 || month == 6 || month == 9 || month == 11 then 30
    else 31
  }

  const DAY := 24 * 60 * 60 * 1000000

  predicate IsStamp(t: Stamp) {
    t.year >= 1 && 1 <= t.month <= 12 && 1 <= t.day <= DaysIn(t.year, t.month) && t.time < DAY
  }

  predicate Before(a: Stamp, b: Stamp) {
    || a.year < b.year
    || (a.year == b.year &&
        (a.month < b.month ||
         (a.month == b.month && (a.day < b.day || (a.day == b.day && a.time < b.time)))))
  }

  /** `t + i months`: the day is clamped to the length of the month it lands in. */
  function AddMonths(t: Stamp, i: nat): Stamp
    requires t.month >= 1
  {
    var index := 12 * t.year + t.month - 1 + i;
    var year, month := index / 12, index % 12 + 1;
    Stamp(year, month, if t.day <= DaysIn(year, month) then t.day else DaysIn(year, month), t.time)
  }

  /** The same day and time so many months on, or the last day of a month too short for it. */
  lemma MonthsAdded(t: Stamp, i: nat)
    requires IsStamp(t)
    ensures var later := AddMonths(t, i);
            && IsStamp(later) && MonthIndex(later) == MonthIndex(t) + i && later.time == t.time
            && later.day <= t.day && (later.day < t.day ==> !IsStamp(later.(day := later.day + 1)))
  {
  }

  /** `date_trunc('month', t)` */
  function MonthOf(t: Stamp): Stamp { Stamp(t.year, t.month, 1, 0) }

  /** Months counted through: what a calendar month is, apart from any arithmetic on dates. */
  function MonthIndex(t: Stamp): nat
    requires IsStamp(t)
  {
    12 * t.year + t.month - 1
  }

  /** The first moment of a month. */
  function StartOf(index: nat): (t: Stamp) {
    Stamp(index / 12, index % 12 + 1, 1, 0)
  }

  /** The range `FOR VALUES FROM (start) TO (end)`: half-open. */
  datatype Range = Range(start: Stamp, end: Stamp)

  predicate Holds(r: Range, t: Stamp) { !Before(t, r.start) && Before(t, r.end) }

  /** Truncating after adding months gives the start of that month, whatever day the clamp picked. */
  lemma LoopStart(now: Stamp, i: nat)
    requires IsStamp(now)
    ensures MonthOf(AddMonths(now, i)) == StartOf(MonthIndex(now) + i)
  {
  }

  lemma LoopEnd(index: nat)
    ensures AddMonths(StartOf(index), 1) == StartOf(index + 1)
  {
    assert 12 * (index / 12) + index % 12 == index;
  }

  /** A range from one month's start to the next holds the moments of that month and no others. */
  lemma RangeIsMonth(index: nat, t: Stamp)
    requires IsStamp(t)
    ensures Holds(Range(StartOf(index), StartOf(index + 1)), t) <==> MonthIndex(t) == index
  {
    var a, b := StartOf(index), StartOf(index + 1);
    assert 12 * a.year + a.month - 1 == index && 12 * b.year + b.month - 1 == index + 1;
    BeforeByMonth(t, index);
    BeforeByMonth(t, index + 1);
  }

  lemma BeforeByMonth(t: Stamp, index: nat)
    requires IsStamp(t)
    ensures Before(t, StartOf(index)) <==> MonthIndex(t) < index
  {
    var a := StartOf(index);
    assert 12 * a.year + (a.month - 1) == index && 1 <= a.month <= 12;
  }

  // ----- partition names -----

  function DigitChar(d: nat): char
    requires d < 10
  {
    ['0', '1', '2', '3', '4', '5', '6', '7', '8', '9'][d]
  }

  function Decimal(n: nat): string {
    if n < 10 then [DigitChar(n)] else Decimal(n / 10) + [DigitChar(n % 10)]
  }

  function Zeros(n: nat): string { seq(n, _ => '0') }

  /** `to_char` with `YYYY` or `MM`: at least this many digits. */
  function Padded(n: nat, width: nat): string {
    var s := Decimal(n);
    if |s| < width then Zeros(width - |s|) + s else s
  }

  function TableName(start: Stamp): string {
    "audit_log_y" + Padded(start.year, 4) + "m" + Padded(start.month, 2)
  }

  function DigitValue(c: char): nat {
    if '0' <= c <= '9' then (c - '0') as nat else 0
  }

  function ValueOf(s: string): nat {
    if s == "" then 0 else 10 * ValueOf(s[..|s| - 1]) + DigitValue(s[|s| - 1])
  }

  lemma {:induction false} ValueOfDecimal(n: nat)
    ensures ValueOf(Decimal(n)) == n
    decreases n
  {
    if n >= 10 {
      ValueOfDecimal(n / 10);
      var s := Decimal(n);
      assert s[..|s| - 1] == Decimal(n / 10);
    } else {
      var s := Decimal(n);
      assert s[..|s| - 1] == "";
    }
  }

  lemma {:induction false} ValueOfZeros(n: nat, s: string)
    ensures ValueOf(Zeros(n) + s) == ValueOf(s)
    decreases n + |s|
  {
    var t := Zeros(n) + s;
    if s != "" {
      assert t[..|t| - 1] == Zeros(n) + s[..|s| - 1];
      ValueOfZeros(n, s[..|s| - 1]);
    } else if n > 0 {
      assert t[..|t| - 1] == Zeros(n - 1) + "";
      ValueOfZeros(n - 1, "");
    }
  }

  lemma PaddedTells(n: nat, width: nat)
    ensures ValueOf(Padded(n, width)) == n
  {
    ValueOfDecimal(n);
    var s := Decimal(n);
    if |s| < width { ValueOfZeros(width - |s|, s); }
  }

  /** Two digits are enough for a month. */
  lemma MonthWidth(month: nat)
    requires 1 <= month <= 12
    ensures |Padded(month, 2)| == 2
  {
    if month >= 10 { assert Decimal(month) == Decimal(month / 10) + [DigitChar(month % 10)]; }
  }

  /** Different months have different table names, for years of any length. */
  lemma NamesAreDistinct(i: nat, j: nat)
    requires TableName(StartOf(i)) == TableName(StartOf(j))
    ensures i == j
  {
    var a, b := StartOf(i), StartOf(j);
    MonthWidth(a.month);
    MonthWidth(b.month);
    var p, q := Padded(a.year, 4), Padded(b.year, 4);
    var s, t := TableName(a), TableName(b);
    assert s[11..|s| - 3] == p && t[11..|t| - 3] == q;
    assert s[|s| - 2..] == Padded(a.month, 2) && t[|t| - 2..] == Padded(b.month, 2);
    PaddedTells(a.year, 4);
    PaddedTells(b.year, 4);
    PaddedTells(a.month, 2);
    PaddedTells(b.month, 2);
    assert 12 * (i / 12) + i % 12 == i && 12 * (j / 12) + j % 12 == j;
  }

  lemma {:induction false} DecimalHasDigits(n: nat)
    ensures Decimal(n) != "" && forall k :: 0 <= k < |Decimal(n)| ==> '0' <= Decimal(n)[k] <= '9'
    ensures |Decimal(n)| > 1 ==> Decimal(n)[0] != '0'
    decreases n
  {
    if n >= 10 {
      DecimalHasDigits(n / 10);
      if n < 100 { assert Decimal(n / 10) == [DigitChar(n / 10)]; }
    }
  }

  lemma PaddedHasDigits(n: nat, width: nat)
    requires width >= 1
    ensures var p := Padded(n, width);
            && (forall k :: 0 <= k < |p| ==> '0' <= p[k] <= '9') && ValueOf(p) == n
            && |p| >= width && (|p| > width ==> p[0] != '0')
  {
    PaddedTells(n, width);
    DecimalHasDigits(n);
    hide Decimal, ValueOf;
  }

  lemma Cut(head: string, y: string, m: string)
    requires |m| == 2
    ensures var name := head + y + "m" + m;
            && name[..|head|] == head && name[|head|..|name| - 3] == y && name[|name| - 2..] == m
            && name[|name| - 3] == 'm'
  {}

  /** The name is the fixed text with the year in at least four digits and the month in two. */
  lemma TableNameIs(start: Stamp)
    requires 1 <= start.month <= 12
    ensures var name := TableName(start);
            var year, month := name[|"audit_log_y"|..|name| - 3], name[|name| - 2..];
            && |name| >= 18 && name[..|"audit_log_y"|] == "audit_log_y" && name[|name| - 3] == 'm'
            && (forall k :: 0 <= k < |year| ==> '0' <= year[k] <= '9') && ValueOf(year) == start.year
            && (forall k :: 0 <= k < |month| ==> '0' <= month[k] <= '9') && ValueOf(month) == start.month
            && (|year| > 4 ==> year[0] != '0')
  {
    hide Padded, ValueOf;
    PaddedHasDigits(start.year, 4);
    PaddedHasDigits(start.month, 2);
    MonthWidth(start.month);
    Cut("audit_log_y", Padded(start.year, 4), Padded(start.month, 2));
  }

  // ----- the migration -----

  datatype Row = Row(id: nat, createdAt: Stamp, entry: string)

  datatype Partition = Partition(range: Range, rows: multiset<Row>)

  /** The table name and the range of a month: what the loop computes, in closed form. */
  function MonthName(month: nat): string { TableName(StartOf(month)) }

  function MonthRange(month: nat): Range { Range(StartOf(month), StartOf(month + 1)) }

  lemma LoopBody(now: Stamp, i: nat)
    requires IsStamp(now)
    ensures var start := MonthOf(AddMonths(now, i));
            start.month >= 1 && TableName(start) == MonthName(MonthIndex(now) + i)
            && Range(start, AddMonths(start, 1)) == MonthRange(MonthIndex(now) + i)
  {
    LoopStart(now, i);
    LoopEnd(MonthIndex(now) + i);
  }

  lemma MonthNamesDiffer(i: nat, j: nat)
    requires i != j
    ensures MonthName(i) != MonthName(j)
  {
    if MonthName(i) == MonthName(j) { NamesAreDistinct(i, j); }
  }

  lemma MonthRangeIs(month: nat, t: Stamp)
    requires IsStamp(t)
    ensures Holds(MonthRange(month), t) <==> MonthIndex(t) == month
  {
    RangeIsMonth(month, t);
  }

  /** One partition for each month from `from` up to `to` whose name is free, holding that month. */
  ghost predicate CoversMonths(parts: map<string, Partition>, from: nat, to: nat, taken: set<string>) {
    && (forall month :: from <= month < to && MonthName(month) !in taken ==> MonthName(month) in parts)
    && (forall n :: n in parts ==> IsMonthPartition(parts[n], n, from, to, taken))
  }

  ghost predicate IsMonthPartition(part: Partition, name: string, from: nat, to: nat, taken: set<string>) {
    name !in taken && exists month :: from <= month < to && name == MonthName(month) && part.range == MonthRange(month)
  }

  /** No moment lies in two partitions, so the server accepts every range and routes every row. */
  ghost predicate AreDisjoint(parts: map<string, Partition>) {
    forall m, n, t ::
      (m in parts && n in parts && IsStamp(t) && Holds(parts[m].range, t) && Holds(parts[n].range, t)) ==> m == n
  }

  lemma MonthsAreDisjoint(parts: map<string, Partition>, from: nat, to: nat, taken: set<string>)
    requires CoversMonths(parts, from, to, taken)
    ensures AreDisjoint(parts)
  {
    forall m, n, t | m in parts && n in parts && IsStamp(t) && Holds(parts[m].range, t) && Holds(parts[n].range, t)
      ensures m == n
    {
      assert IsMonthPartition(parts[m], m, from, to, taken) && IsMonthPartition(parts[n], n, from, to, taken);
      var i :| from <= i < to && m == MonthName(i) && parts[m].range == MonthRange(i);
      var j :| from <= j < to && n == MonthName(j) && parts[n].range == MonthRange(j);
      MonthRangeIs(i, t);
      MonthRangeIs(j, t);
    }
  }

  /** The rows a partition ought to hold: all those of its range, as often as there are. */
  ghost predicate HoldsItsRows(part: Partition, rows: multiset<Row>) {
    forall r :: part.rows[r] == if Holds(part.range, r.createdAt) then rows[r] else 0
  }

  /** The default partition holds what no other partition does. */
  ghost predicate HoldsTheRest(rest: multiset<Row>, parts: map<string, Partition>, rows: multiset<Row>) {
    forall r :: rest[r] == if IsRouted(parts, r.createdAt) then 0 else rows[r]
  }

  ghost predicate IsRouted(parts: map<string, Partition>, t: Stamp) {
    exists n :: n in parts && Holds(parts[n].range, t)
  }

  ghost predicate SameRanges(a: map<string, Partition>, b: map<string, Partition>) {
    a.Keys == b.Keys && forall n :: n in a ==> b[n].range == a[n].range
  }

  /** Where rows go depends on the ranges alone. */
  lemma RangesDecide(a: map<string, Partition>, b: map<string, Partition>)
    requires SameRanges(a, b)
    ensures AreDisjoint(a) ==> AreDisjoint(b)
    ensures forall t :: IsRouted(a, t) <==> IsRouted(b, t)
  {
    hide Holds, IsStamp;
    if AreDisjoint(a) {
      forall m, n, t | m in b && n in b && IsStamp(t) && Holds(b[m].range, t) && Holds(b[n].range, t)
        ensures m == n
      {
        assert Holds(a[m].range, t) && Holds(a[n].range, t);
      }
    }
    forall t ensures IsRouted(a, t) <==> IsRouted(b, t) {
      if n :| n in a && Holds(a[n].range, t) { assert Holds(b[n].range, t); }
      if n :| n in b && Holds(b[n].range, t) { assert Holds(a[n].range, t); }
    }
  }

  /** Every row, with all its copies, stands in exactly one partition or in the default one. */
  ghost predicate IsSplitOf(parts: map<string, Partition>, rest: multiset<Row>, rows: multiset<Row>) {
    && AreDisjoint(parts)
    && (forall n :: n in parts ==> HoldsItsRows(parts[n], rows))
    && HoldsTheRest(rest, parts, rows)
  }

  lemma NextMonth(parts: map<string, Partition>, from: nat, month: nat, taken: set<string>)
    requires from <= month && CoversMonths(parts, from, month, taken)
    ensures MonthName(month) !in parts
    ensures MonthName(month) in taken ==> CoversMonths(parts, from, month + 1, taken)
    ensures MonthName(month) !in taken ==>
              CoversMonths(parts[MonthName(month) := Partition(MonthRange(month), multiset{})], from, month + 1, taken)
  {
    hide TableName, StartOf;
    var name := MonthName(month);
    if name in parts {
      assert IsMonthPartition(parts[name], name, from, month, taken);
      var j :| from <= j < month && name == MonthName(j);
      MonthNamesDiffer(month, j);
    }
    forall n | n in parts ensures IsMonthPartition(parts[n], n, from, month + 1, taken) {
      assert IsMonthPartition(parts[n], n, from, month, taken);
    }
    if name !in taken {
      assert IsMonthPartition(Partition(MonthRange(month), multiset{}), name, from, month + 1, taken);
    }
  }

  lemma NothingCopied(parts: map<string, Partition>)
    requires AreDisjoint(parts) && forall n :: n in parts ==> parts[n].rows == multiset{}
    ensures IsSplitOf(parts, multiset{}, multiset([]))
  {
    forall n | n in parts ensures HoldsItsRows(parts[n], multiset([])) {
      assert parts[n].rows == multiset{};
    }
  }

  lemma RoutedOnlyTo(parts: map<string, Partition>, t: Stamp, name: string)
    requires AreDisjoint(parts) && IsStamp(t) && name in parts && Holds(parts[name].range, t)
    ensures IsRouted(parts, t)
    ensures forall n :: n in parts && n != name ==> !Holds(parts[n].range, t)
  {
  }

  lemma RoutedRow(parts: map<string, Partition>, rest: multiset<Row>, rows: multiset<Row>, row: Row, name: string)
    requires IsSplitOf(parts, rest, rows) && IsStamp(row.createdAt)
    requires name in parts && Holds(parts[name].range, row.createdAt)
    ensures IsSplitOf(parts[name := parts[name].(rows := parts[name].rows + multiset{row})], rest, rows + multiset{row})
  {
    hide Holds, IsStamp, IsRouted, AreDisjoint;
    var next := parts[name := parts[name].(rows := parts[name].rows + multiset{row})];
    RangesDecide(parts, next);
    RoutedOnlyTo(parts, row.createdAt, name);
    forall n | n in next ensures HoldsItsRows(next[n], rows + multiset{row}) {
      assert HoldsItsRows(parts[n], rows);
    }
    forall r: Row ensures rest[r] == if IsRouted(next, r.createdAt) then 0 else (rows + multiset{row})[r] { }
  }

  lemma UnroutedRow(parts: map<string, Partition>, rest: multiset<Row>, rows: multiset<Row>, row: Row)
    requires IsSplitOf(parts, rest, rows)
    requires forall n :: n in parts ==> !Holds(parts[n].range, row.createdAt)
    ensures IsSplitOf(parts, rest + multiset{row}, rows + multiset{row})
  {
    hide Holds, AreDisjoint;
    assert !IsRouted(parts, row.createdAt);
    forall n | n in parts ensures HoldsItsRows(parts[n], rows + multiset{row}) {
      assert HoldsItsRows(parts[n], rows);
    }
  }

  class AuditLog {
    /** The heap table until the migration drops it. */
    var legacy: seq<Row>
    var partitions: map<string, Partition>
    var defaultRows: multiset<Row>

    constructor (rows: seq<Row>)
      ensures legacy == rows && partitions == map[] && defaultRows == multiset{}
    {
      legacy, partitions, defaultRows := rows, map[], multiset{};
    }

    /** The `FOR i IN 0..3` loop: `CREATE TABLE IF NOT EXISTS` for this month and the next three. */
    method CreateMonths(now: Stamp, taken: set<string>)
      requires IsStamp(now) && partitions == map[]
      modifies `partitions
      ensures CoversMonths(partitions, MonthIndex(now), MonthIndex(now) + 4, taken)
      ensures forall n :: n in partitions ==> partitions[n].rows == multiset{}
    {
      hide TableName, StartOf, AddMonths;
      for i := 0 to 4
        invariant CoversMonths(partitions, MonthIndex(now), MonthIndex(now) + i, taken)
        invariant forall n :: n in partitions ==> partitions[n].rows == multiset{}
      {
        var monthStart := MonthOf(AddMonths(now, i));
        LoopBody(now, i);
        var monthEnd := AddMonths(monthStart, 1);
        var name := TableName(monthStart);
        NextMonth(partitions, MonthIndex(now), MonthIndex(now) + i, taken);
        if name !in taken && name !in partitions {
          partitions := partitions[name := Partition(Range(monthStart, monthEnd), multiset{})];
        }
      }
    }

    /** The partition the server routes a moment to. */
    method Route(t: Stamp) returns (name: string, found: bool)
      ensures found ==> name in partitions && Holds(partitions[name].range, t)
      ensures !found ==> forall n :: n in partitions ==> !Holds(partitions[n].range, t)
    {
      name, found := "", false;
      var todo := partitions.Keys;
      while todo != {}
        invariant todo <= partitions.Keys
        invariant found ==> name in partitions && Holds(partitions[name].range, t)
        invariant !found ==> forall n :: n in partitions && n !in todo ==> !Holds(partitions[n].range, t)
        decreases todo
      {
        var n :| n in todo;
        if Holds(partitions[n].range, t) { name, found := n, true; }
        todo := todo - {n};
      }
    }

    /** `INSERT INTO audit_log SELECT … FROM audit_log_legacy` */
    method CopyRows()
      requires AreDisjoint(partitions) && defaultRows == multiset{}
      requires forall n :: n in partitions ==> partitions[n].rows == multiset{}
      requires forall k :: 0 <= k < |legacy| ==> IsStamp(legacy[k].createdAt)
      modifies `partitions, `defaultRows
      ensures partitions.Keys == old(partitions).Keys
      ensures forall n :: n in partitions ==> partitions[n].range == old(partitions)[n].range
      ensures IsSplitOf(partitions, defaultRows, multiset(legacy))
    {
      hide IsSplitOf, AreDisjoint, Holds, HoldsItsRows, HoldsTheRest;
      ghost var ranges := map n | n in partitions :: partitions[n].range;
      NothingCopied(partitions);
      assert legacy[..0] == [];
      for k := 0 to |legacy|
        invariant partitions.Keys == ranges.Keys
        invariant forall n :: n in partitions ==> partitions[n].range == ranges[n]
        invariant IsSplitOf(partitions, defaultRows, multiset(legacy[..k]))
      {
        var row := legacy[k];
        var name, found := Route(row.createdAt);
        assert legacy[..k + 1] == legacy[..k] + [row];
        if found {
          RoutedRow(partitions, defaultRows, multiset(legacy[..k]), row, name);
          partitions := partitions[name := partitions[name].(rows := partitions[name].rows + multiset{row})];
        } else {
          UnroutedRow(partitions, defaultRows, multiset(legacy[..k]), row);
          defaultRows := defaultRows + multiset{row};
        }
      }
      assert legacy[..|legacy|] == legacy;
    }

    /** The whole migration: partitions, copy, and the heap table gone. */
    method Up093(now: Stamp, taken: set<string>)
      requires IsStamp(now) && partitions == map[] && defaultRows == multiset{}
      requires forall k :: 0 <= k < |legacy| ==> IsStamp(legacy[k].createdAt)
      modifies this
      ensures legacy == []
      ensures CoversMonths(partitions, MonthIndex(now), MonthIndex(now) + 4, taken)
      ensures IsSplitOf(partitions, defaultRows, multiset(old(legacy)))
    {
      hide CoversMonths, AreDisjoint, IsSplitOf, IsStamp, MonthIndex;
      CreateMonths(now, taken);
      MonthsAreDisjoint(partitions, MonthIndex(now), MonthIndex(now) + 4, taken);
      ghost var made := partitions;
      CopyRows();
      SameCover(made, partitions, MonthIndex(now), MonthIndex(now) + 4, taken);
      legacy := [];
    }
  }

  lemma SameCover(a: map<string, Partition>, b: map<string, Partition>, from: nat, to: nat, taken: set<string>)
    requires CoversMonths(a, from, to, taken)
    requires SameRanges(a, b)
    ensures CoversMonths(b, from, to, taken)
  {
    forall n | n in b ensures IsMonthPartition(b[n], n, from, to, taken) {
      assert n in a && IsMonthPartition(a[n], n, from, to, taken);
    }
    forall month | from <= month < to && MonthName(month) !in taken ensures MonthName(month) in b {
      assert MonthName(month) in a;
    }
  }

  lemma OwnPartition(parts: map<string, Partition>, from: nat, to: nat, taken: set<string>, t: Stamp, n: string)
    requires IsStamp(t) && CoversMonths(parts, from, to, taken)
    ensures n in parts && Holds(parts[n].range, t) <==>
            from <= MonthIndex(t) < to && MonthName(MonthIndex(t)) !in taken && n == MonthName(MonthIndex(t))
  {
    var own := MonthIndex(t);
    if n in parts {
      assert IsMonthPartition(parts[n], n, from, to, taken);
      var month :| from <= month < to && n == MonthName(month) && parts[n].range == MonthRange(month);
      MonthRangeIs(month, t);
      if month != own { MonthNamesDiffer(month, own); }
    }
  }

  /**
   * After the migration a row is where its month says: in the partition of the current month or
   * one of the next three if that partition could be made, in the default partition otherwise; as
   * often as it was in the log, and nowhere else.
   */
  lemma RowsByMonth(now: Stamp, taken: set<string>, parts: map<string, Partition>, rest: multiset<Row>,
                    rows: multiset<Row>, r: Row)
    requires IsStamp(now) && CoversMonths(parts, MonthIndex(now), MonthIndex(now) + 4, taken)
    requires IsSplitOf(parts, rest, rows) && IsStamp(r.createdAt)
    ensures var month := MonthIndex(r.createdAt);
            var own := MonthIndex(now) <= month <= MonthIndex(now) + 3 && MonthName(month) !in taken;
            && (own ==> MonthName(month) in parts && parts[MonthName(month)].rows[r] == rows[r])
            && (forall n :: n in parts && !(own && n == MonthName(month)) ==> parts[n].rows[r] == 0)
            && rest[r] == if own then 0 else rows[r]
  {
    RowsByRange(parts, MonthIndex(now), MonthIndex(now) + 4, taken, rest, rows, r);
  }

  lemma RowsByRange(parts: map<string, Partition>, from: nat, to: nat, taken: set<string>, rest: multiset<Row>,
                    rows: multiset<Row>, r: Row)
    requires CoversMonths(parts, from, to, taken) && IsSplitOf(parts, rest, rows) && IsStamp(r.createdAt)
    ensures var month := MonthIndex(r.createdAt);
            var own := from <= month < to && MonthName(month) !in taken;
            && (own ==> MonthName(month) in parts && parts[MonthName(month)].rows[r] == rows[r])
            && (forall n :: n in parts && !(own && n == MonthName(month)) ==> parts[n].rows[r] == 0)
            && rest[r] == if own then 0 else rows[r]
  {
    hide Holds, MonthIndex, MonthName;
    var month := MonthIndex(r.createdAt);
    OwnPartition(parts, from, to, taken, r.createdAt, MonthName(month));
    forall n | n in parts ensures parts[n].rows[r] == if Holds(parts[n].range, r.createdAt) then rows[r] else 0 {
      assert HoldsItsRows(parts[n], rows);
    }
    forall n | n in parts
      ensures Holds(parts[n].range, r.createdAt) <==>
              from <= month < to && MonthName(month) !in taken && n == MonthName(month)
    {
      OwnPartition(parts, from, to, taken, r.createdAt, n);
    }
  }
}
