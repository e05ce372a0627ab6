/**
 * The pre-push gate, scripts/pre-push-tia.ts: which outcomes of the subprocesses it starts let a
 * push through.
 */
module PrePush {
  import opened Options

  // ----- what the hook asks of the outside, and what it may be told -----

  datatype Invocation = Invocation(name: string, junit: string)

  const NON_SERIAL := Invocation("non-serial", "test-results/targeted-non-serial.xml")
  const SERIAL := Invocation("serial", "test-results/targeted-serial.xml")

  /** `MERGED_JUNIT`, the report the attestation reads. */
  const MERGED := "e2e/test-results/results.xml"

  /** A report as a run wrote it, or as merged from others. */
  datatype Report = Written(text: string) | MergedFrom(inputs: seq<Report>)

  datatype Mode = Targeted | FullSuite

  datatype Selection = Selection(mode: Mode, specFiles: seq<string>, unresolvedTestIds: seq<string>)

  datatype Purpose = BestEffort | ForTests

  datatype Call =
    | QaE2eExists
    | Typecheck
    | Audit
    | BypassIsSet
    | ResolveHead
    | ResolveDbEnv(purpose: Purpose)
    | CreateCoverageDb
    | LoadCoverageMap
    | SelectTests
    | RunFull(serial: bool)
    | PlanInvocations(specFiles: seq<string>)
    | RemoveReport(junit: string)
    | RunHalf(invocation: Invocation)
    | MergeReports(inputs: seq<Report>, expected: nat)
    | Attest(report: Option<Report>, selection: Option<Selection>)

  datatype Reply =
    | Done
    | Threw(status: Option<int>)
    | Refused
    | Answer(yes: bool)
    | Selected(selection: Selection)
    | Planned(nonSerial: bool, serial: bool)
    | Ran(ok: bool, report: Option<string>)
    | Verdict(exitedOk: bool, passed: Option<bool>)

  datatype Event = Event(call: Call, reply: Reply)

  /** Whatever the outside does, given all that went before. */
  type Outside = (seq<Event>, Call) -> Reply

  datatype Error = StepFailed(call: Call) | NoTests | AttestationFailed

  datatype Result = Returned | Failed(error: Error) | Exited

  const EXIT_MAP_UNREADABLE := 2

  predicate RanWell(reply: Reply) { reply.Ran? && reply.ok }

  function ReportOf(reply: Reply): Option<Report> {
    if reply.Ran? && reply.report.Some? then Some(Written(reply.report.value)) else None
  }

  /** What the gate printed decides, whatever its exit status was. */
  predicate AttestationPassed(reply: Reply) { reply.Verdict? && reply.passed == Some(true) }

  function PlanOf(reply: Reply): seq<Invocation> {
    if !reply.Planned? then []
    else (if reply.nonSerial then [NON_SERIAL] else []) + (if reply.serial then [SERIAL] else [])
  }

  /** One event on account of which a push is refused. */
  predicate IsBlocker(e: Event) {
    match e.call
    case QaE2eExists => false
    case Typecheck => !e.reply.Done?
    case Audit => !e.reply.Done?
    case BypassIsSet => false
    case ResolveHead => !e.reply.Done?
    case ResolveDbEnv(purpose) => e.reply.Refused? || (purpose.ForTests? && !e.reply.Done?)
    case CreateCoverageDb => false
    case LoadCoverageMap => e.reply == Threw(Some(EXIT_MAP_UNREADABLE))
    case SelectTests => false
    case RunFull(_) => !(e.reply.Ran? && e.reply.ok)
    case PlanInvocations(_) => !(e.reply.Planned? && (e.reply.nonSerial || e.reply.serial))
    case RemoveReport(_) => !e.reply.Done?
    case RunHalf(_) => !(e.reply.Ran? && e.reply.ok)
    case MergeReports(_, _) => !e.reply.Done?
    case Attest(_, _) => !(e.reply.Verdict? && e.reply.passed == Some(true))
  }

  predicate IsClear(trace: seq<Event>) { forall k :: 0 <= k < |trace| ==> !IsBlocker(trace[k]) }

  // ----- the targeted run, told by its halves -----

  function ReportsOf(halves: seq<Event>): seq<Report> {
    if halves == [] then []
    else
      var last := ReportOf(halves[|halves| - 1].reply);
      ReportsOf(halves[..|halves| - 1]) + if last.Some? then [last.value] else []
  }

  function FirstFailure(halves: seq<Event>): Option<Error> {
    if halves == [] then None
    else if !RanWell(halves[0].reply) then Some(StepFailed(halves[0].call))
    else FirstFailure(halves[1..])
  }

  predicate AreHalves(halves: seq<Event>, plan: seq<Invocation>) {
    |halves| == |plan| && forall k :: 0 <= k < |plan| ==> halves[k].call == RunHalf(plan[k])
  }

  predicate AreRemovals(removals: seq<Event>, plan: seq<Invocation>) {
    |removals| == |plan| && forall k :: 0 <= k < |plan| ==> removals[k] == Event(RemoveReport(plan[k].junit), Done)
  }

  /** All up to one report were removed, and then that one could not be. */
  predicate IsFailedRemoval(removals: seq<Event>, plan: seq<Invocation>) {
    var n := |removals| - 1;
    && 0 <= n < |plan| && AreRemovals(removals[..n], plan[..n])
    && removals[n].call == RemoveReport(plan[n].junit) && !removals[n].reply.Done?
  }

  /** The merge is of the reports of these halves and of nothing else; without any there is none. */
  predicate IsMerge(merge: seq<Event>, halves: seq<Event>) {
    if ReportsOf(halves) == [] then merge == []
    else |merge| == 1 && merge[0].call == MergeReports(ReportsOf(halves), |halves|)
  }

  predicate HasDistinctReports(plan: seq<Invocation>) {
    && (forall k :: 0 <= k < |plan| ==> plan[k].junit != MERGED)
    && forall i, j :: 0 <= i < j < |plan| ==> plan[i].junit != plan[j].junit
  }

  // ----- why a push may go through -----

  /** Only a targeted selection is handed on to the attestation. */
  function HandedOn(selection: Option<Selection>): Option<Selection> {
    if selection.Some? && selection.value.mode.Targeted? then selection else None
  }

  /** The report the attestation reads after a half: the half's own, or, if it left none, the one that stood there. */
  function Standing(half: Event, before: Option<Report>): Option<Report> {
    if ReportOf(half.reply).Some? then ReportOf(half.reply) else before
  }

  predicate IsAttestedHalf(half: Event, attested: Event, serial: bool, report: Option<Report>,
                           bound: Option<Selection>)
  {
    && half.call == RunFull(serial) && RanWell(half.reply)
    && attested.call == Attest(report, bound) && AttestationPassed(attested.reply)
  }

  /**
   * Both halves of the full suite succeeded, each attested before anything else, by the report it
   * left; `report` is the one that stood there before, and `bound` what the attestations were for.
   */
  ghost predicate EndsInFullSuite(trace: seq<Event>, report: Option<Report>, bound: Option<Selection>) {
    var n := |trace|;
    && n >= 4
    && var first := Standing(trace[n - 4], report);
       && IsAttestedHalf(trace[n - 4], trace[n - 3], false, first, bound)
       && IsAttestedHalf(trace[n - 2], trace[n - 1], true, Standing(trace[n - 2], first), bound)
  }

  /**
   * What makes the hook run the full suite, and what it then attests for: nothing, where there was
   * no selection or one of everything; but a targeted selection of tests none of which has a file.
   */
  predicate CallsForFullSuite(e: Event, bound: Option<Selection>) {
    || (e == Event(ResolveDbEnv(ForTests), Done) && bound.None?)
    || (e.call.SelectTests? &&
        if !e.reply.Selected? || e.reply.selection.mode.FullSuite? then bound.None?
        else && bound == Some(e.reply.selection)
             && e.reply.selection.specFiles == [] && e.reply.selection.unresolvedTestIds != [])
  }

  ghost predicate EarnedByFullSuite(trace: seq<Event>, report: Option<Report>) {
    |trace| >= 5 &&
    exists bound :: CallsForFullSuite(trace[|trace| - 5], bound) && EndsInFullSuite(trace, report, bound)
  }

  /**
   * The targeted selection was planned, the reports of earlier pushes removed, every planned half
   * run with success and the reports merged; then the attestation passed.
   */
  ghost predicate EarnedBySelection(trace: seq<Event>) {
    exists start: seq<Event>, selection: Selection, planned: Reply, removals: seq<Event>, halves: seq<Event>,
           merge: seq<Event> :: IsSelectedRun(trace, start, selection, planned, removals, halves, merge)
  }

  /** Each half that was planned, and no other, ran and succeeded: first the one without the serial tests. */
  predicate AllWent(halves: seq<Event>, planned: Reply) {
    && planned.Planned?
    && |halves| == (if planned.nonSerial then 1 else 0) + (if planned.serial then 1 else 0)
    && (planned.nonSerial ==> halves[0].call == RunHalf(NON_SERIAL))
    && (planned.serial ==> halves[|halves| - 1].call == RunHalf(SERIAL))
    && forall k :: 0 <= k < |halves| ==> halves[k].reply.Ran? && halves[k].reply.ok
  }

  predicate IsSelectedRun(trace: seq<Event>, start: seq<Event>, selection: Selection, planned: Reply,
                          removals: seq<Event>, halves: seq<Event>, merge: seq<Event>)
  {
    var chosen := [Event(SelectTests, Selected(selection)), Event(PlanInvocations(selection.specFiles), planned)];
    var plan := PlanOf(planned);
    && |trace| > 0 && trace[..|trace| - 1] == start + chosen + removals + halves + merge
    && selection.mode.Targeted? && plan != [] && AreRemovals(removals, plan)
    && AreHalves(halves, plan) && AllWent(halves, planned)
    && IsMerge(merge, halves) && (merge != [] ==> merge[0].reply.Done?)
    && IsAttestedRun(trace[|trace| - 1], selection, halves)
  }

  /** The attestation passed, for the selection and of this very run's reports if it left any. */
  predicate IsAttestedRun(e: Event, selection: Selection, halves: seq<Event>) {
    && e.call.Attest? && AttestationPassed(e.reply) && e.call.selection == Some(selection)
    && (ReportsOf(halves) != [] ==> e.call.report == Some(MergedFrom(ReportsOf(halves))))
  }

  predicate IsNothingToRun(reply: Reply) {
    reply.Selected? && reply.selection.mode.Targeted? && reply.selection.specFiles == []
    && reply.selection.unresolvedTestIds == []
  }

  predicate HadNothingToRun(trace: seq<Event>) {
    |trace| > 0 && trace[|trace| - 1].call.SelectTests? && IsNothingToRun(trace[|trace| - 1].reply)
  }

  /** Why a push may go through, with the report that stood there before the hook ran. */
  ghost predicate IsEarned(trace: seq<Event>, report: Option<Report>) {
    || (|trace| == 1 && trace[0].call.QaE2eExists? && trace[0].reply != Answer(true))
    || (&& |trace| >= 4
        && trace[0] == Event(QaE2eExists, Answer(true)) && trace[1] == Event(Typecheck, Done)
        && trace[2] == Event(Audit, Done) && trace[3].call.BypassIsSet?
        && (|| trace[|trace| - 1] == Event(BypassIsSet, Answer(true))
            || HadNothingToRun(trace)
            || EarnedBySelection(trace)
            || EarnedByFullSuite(trace, report)))
  }

  // ----- what is asked, and when -----

  predicate IsHeaded(trace: seq<Event>) { |trace| >= 5 && trace[4] == Event(ResolveHead, Done) }

  predicate IsResolved(e: Event) { e == Event(ResolveDbEnv(BestEffort), Done) }

  /** From `from` up to `to` the database was looked for and not found, and not refused either. */
  predicate IsUnresolved(trace: seq<Event>, from: nat, to: nat) {
    to <= |trace| && forall k :: from <= k < to ==>
      trace[k].call == ResolveDbEnv(BestEffort) && !trace[k].reply.Done? && !trace[k].reply.Refused?
  }

  /** Without a usable selection of tests with files, the full suite is run. */
  predicate FallsBack(e: Event) {
    || e == Event(ResolveDbEnv(ForTests), Done)
    || (e.call.SelectTests? &&
        (e.reply.Selected? && e.reply.selection.mode.Targeted? ==>
           e.reply.selection.specFiles == [] && e.reply.selection.unresolvedTestIds != []))
  }

  /**
   * The order of the script: when, after all that went before, a question is asked. The database is
   * looked for by each of the three steps that need it until it is found; the committed map is
   * loaded, and read, before tests are selected; the serial half of the full suite starts only right
   * after the other half succeeded and was attested.
   */
  predicate IsDue(before: seq<Event>, call: Call) {
    var n := |before|;
    match call
    case QaE2eExists => n == 0
    case Typecheck => n == 1 && before[0] == Event(QaE2eExists, Answer(true))
    case Audit => n == 2 && before[1] == Event(Typecheck, Done)
    case BypassIsSet => n == 3 && before[2] == Event(Audit, Done)
    case ResolveHead => n == 4 && before[3].call.BypassIsSet? && before[3].reply != Answer(true)
    case ResolveDbEnv(purpose) =>
      IsHeaded(before) && IsUnresolved(before, 5, n) && if purpose.BestEffort? then n <= 7 else n == 8
    case CreateCoverageDb => n == 6 && IsHeaded(before) && IsResolved(before[5])
    case LoadCoverageMap =>
      n == 7 && IsHeaded(before)
      && (before[6].call.CreateCoverageDb? || (IsUnresolved(before, 5, 6) && IsResolved(before[6])))
    case SelectTests =>
      n == 8 && IsHeaded(before)
      && (|| (before[7].call.LoadCoverageMap? && before[7].reply != Threw(Some(2)))
          || (IsUnresolved(before, 5, 7) && IsResolved(before[7])))
    case RunFull(serial) =>
      if !serial then n == 9 && FallsBack(before[8])
      else && n == 11 && before[9].call == RunFull(false) && before[9].reply.Ran? && before[9].reply.ok
           && before[10].call.Attest? && before[10].reply.Verdict? && before[10].reply.passed == Some(true)
    case PlanInvocations(files) =>
      n == 9 && before[8].call.SelectTests? && before[8].reply.Selected? && files != []
      && before[8].reply.selection.mode.Targeted? && before[8].reply.selection.specFiles == files
    case _ => n >= 10
  }

  /** Every question of the trace was due. */
  ghost predicate InOrder(trace: seq<Event>) {
    forall k :: 0 <= k < |trace| ==> IsDue(trace[..k], trace[k].call)
  }

  lemma OneMoreInOrder(trace: seq<Event>, e: Event)
    requires InOrder(trace) && IsDue(trace, e.call)
    ensures InOrder(trace + [e])
  {
    hide IsDue;
    var more := trace + [e];
    forall k | 0 <= k < |more| ensures IsDue(more[..k], more[k].call) {
      if k < |trace| {
        assert more[..k] == trace[..k] && more[k] == trace[k];
      } else {
        assert more[..k] == trace;
      }
    }
  }

  class Hook {
    const outside: Outside
    var trace: seq<Event>
    /** Reports on disk, by their paths. */
    var files: map<string, Report>
    /** `cachedTestStackDbEnv` */
    var hasDbEnv: bool

    constructor (outside: Outside, files: map<string, Report>)
      ensures this.outside == outside && this.files == files && trace == [] && !hasDbEnv
    {
      this.outside, this.files, trace, hasDbEnv := outside, files, [], false;
    }

    method Ask(call: Call) returns (reply: Reply)
      requires InOrder(trace) && IsDue(trace, call)
      modifies `trace
      ensures trace == old(trace) + [Event(call, reply)] && InOrder(trace)
      ensures reply == outside(old(trace), call)
    {
      reply := outside(trace, call);
      OneMoreInOrder(trace, Event(call, reply));
      trace := trace + [Event(call, reply)];
    }

    /** `testStackDbEnv()`: asked once it has been resolved, it is not resolved again. */
    method TestStackDbEnv(purpose: Purpose) returns (r: Result)
      requires IsClear(trace) && InOrder(trace) && (hasDbEnv || IsDue(trace, ResolveDbEnv(purpose)))
      modifies `trace, `hasDbEnv
      ensures InOrder(trace)
      ensures r.Returned? ==> hasDbEnv && IsClear(trace)
      ensures r.Exited? ==> !IsClear(trace)
      ensures r.Failed? ==> !hasDbEnv && (IsClear(trace) <==> purpose.BestEffort?)
      ensures r.Returned? ==> trace == old(trace) + if old(hasDbEnv) then [] else [Event(ResolveDbEnv(purpose), Done)]
      ensures !r.Returned? ==>
                && |trace| == |old(trace)| + 1 && trace[..|old(trace)|] == old(trace)
                && var e := trace[|old(trace)|];
                   e.call == ResolveDbEnv(purpose) && !e.reply.Done? && (r.Exited? <==> e.reply.Refused?)
      ensures old(hasDbEnv) ==> r.Returned?
    {
      hide IsDue;
      if hasDbEnv { return Returned; }
      var reply := Ask(ResolveDbEnv(purpose));
      AddEvent(old(trace), trace[|trace| - 1]);
      match reply
      case Done => hasDbEnv := true; r := Returned;
      case Refused => r := Exited;
      case _ => r := Failed(StepFailed(ResolveDbEnv(purpose)));
    }

    method RunStaticGates() returns (r: Result)
      requires IsClear(trace) && InOrder(trace) && trace == [Event(QaE2eExists, Answer(true))]
      modifies `trace
      ensures InOrder(trace)
      ensures r.Returned? <==> IsClear(trace)
      ensures r.Returned? ==> trace == old(trace) + [Event(Typecheck, Done), Event(Audit, Done)]
    {
      var reply := Ask(Typecheck);
      AddEvent(old(trace), trace[|trace| - 1]);
      if !reply.Done? { return Failed(StepFailed(Typecheck)); }
      ghost var before := trace;
      reply := Ask(Audit);
      AddEvent(before, trace[|trace| - 1]);
      if !reply.Done? { return Failed(StepFailed(Audit)); }
      r := Returned;
    }

    /** Where the prelude stands: by `n` events since the head was resolved, with the database or without. */
    ghost predicate Stands(n: nat)
      reads `trace, `hasDbEnv
    {
      && IsHeaded(trace) && IsClear(trace) && InOrder(trace)
      && if hasDbEnv then |trace| == 6 + n else |trace| == 5 + n && IsUnresolved(trace, 5, |trace|)
    }

    /** Best effort, but for a refused database. */
    method RunCreateCoverageDb() returns (r: Result)
      requires Stands(0) && !hasDbEnv
      modifies `trace, `hasDbEnv
      ensures old(trace) <= trace && InOrder(trace) && (r.Returned? <==> IsClear(trace))
      ensures r.Returned? ==> Stands(1)
      ensures r.Returned? && hasDbEnv ==> trace[|trace| - 1].call.CreateCoverageDb?
    {
      hide IsClear, InOrder;
      var env := TestStackDbEnv(BestEffort);
      if env.Exited? { return Exited; }
      if env.Returned? {
        ghost var before := trace;
        var reply := Ask(CreateCoverageDb);
        AddEvent(before, trace[|trace| - 1]);
      }
      r := Returned;
    }

    /** Best effort, but for a refused database and for a committed map that cannot be read. */
    method RunLoadCoverageMap() returns (r: Result)
      requires Stands(1) && (hasDbEnv ==> trace[|trace| - 1].call.CreateCoverageDb?)
      modifies `trace, `hasDbEnv
      ensures old(trace) <= trace && InOrder(trace) && (r.Returned? <==> IsClear(trace))
      ensures r.Returned? ==> Stands(2)
      ensures r.Returned? && hasDbEnv ==>
                trace[|trace| - 1].call.LoadCoverageMap? && trace[|trace| - 1].reply != Threw(Some(2))
    {
      hide IsClear, InOrder;
      var env := TestStackDbEnv(BestEffort);
      if env.Exited? { return Exited; }
      if env.Returned? {
        ghost var before := trace;
        var reply := Ask(LoadCoverageMap);
        AddEvent(before, trace[|trace| - 1]);
        if reply == Threw(Some(EXIT_MAP_UNREADABLE)) { return Failed(StepFailed(LoadCoverageMap)); }
      }
      r := Returned;
    }

    /** `runSelectTests`; no selection is a throw, which the caller catches. */
    method RunSelectTests() returns (r: Result, selection: Option<Selection>)
      requires Stands(2)
      requires hasDbEnv ==> trace[|trace| - 1].call.LoadCoverageMap? && trace[|trace| - 1].reply != Threw(Some(2))
      modifies `trace, `hasDbEnv
      ensures old(trace) <= trace && InOrder(trace) && (r.Returned? <==> IsClear(trace))
      ensures r.Returned? ==> Stands(3)
      ensures selection.Some? ==> r.Returned? && hasDbEnv
      ensures r.Returned? && hasDbEnv ==>
                && trace[|trace| - 1].call == SelectTests
                && var reply := trace[|trace| - 1].reply;
                   selection == if reply.Selected? then Some(reply.selection) else None
    {
      hide IsClear, InOrder;
      selection := None;
      var env := TestStackDbEnv(BestEffort);
      if env.Exited? { return Exited, None; }
      if env.Returned? {
        ghost var before := trace;
        var reply := Ask(SelectTests);
        AddEvent(before, trace[|trace| - 1]);
        if reply.Selected? { selection := Some(reply.selection); }
      }
      r := Returned;
    }

    /** `attestOrThrow`; only a targeted selection is passed on. */
    method AttestOrThrow(selection: Option<Selection>) returns (r: Result)
      requires IsClear(trace) && InOrder(trace) && hasDbEnv && |trace| >= 10
      modifies `trace
      ensures InOrder(trace) && |trace| == |old(trace)| + 1 && old(trace) <= trace
      ensures trace[|old(trace)|].call.Attest?
      ensures trace[|old(trace)|].call.report
           == var merged := "e2e/test-results/results.xml"; if merged in files then Some(files[merged]) else None
      ensures trace[|old(trace)|].call.selection
           == if selection.Some? && selection.value.mode.Targeted? then selection else None
      ensures r.Returned? <==> AttestationPassed(trace[|old(trace)|].reply)
      ensures r.Returned? <==> IsClear(trace)
    {
      var report := if MERGED in files then Some(files[MERGED]) else None;
      var bound := if selection.Some? && selection.value.mode.Targeted? then selection else None;
      var reply := Ask(Attest(report, bound));
      AddEvent(old(trace), trace[|trace| - 1]);
      if AttestationPassed(reply) { r := Returned; } else { r := Failed(AttestationFailed); }
    }

    /** The report at the place where the attestation looks. */
    function AttestedReport(): Option<Report>
      reads `files
    {
      if MERGED in files then Some(files[MERGED]) else None
    }

    /** One half of the full suite, which writes the attested report itself. */
    method RunFullHalf(serial: bool) returns (r: Result)
      requires IsClear(trace) && InOrder(trace) && hasDbEnv && IsDue(trace, RunFull(serial))
      modifies `trace, `files
      ensures InOrder(trace) && |trace| == |old(trace)| + 1 && old(trace) <= trace
      ensures trace[|old(trace)|].call == RunFull(serial)
      ensures AttestedReport() == Standing(trace[|old(trace)|], old(AttestedReport()))
      ensures r.Returned? <==> RanWell(trace[|old(trace)|].reply)
      ensures r.Returned? <==> IsClear(trace)
    {
      var reply := Ask(RunFull(serial));
      ghost var before := old(trace);
      AddEvent(before, trace[|trace| - 1]);
      if ReportOf(reply).Some? { files := files[MERGED := ReportOf(reply).value]; }
      if RanWell(reply) { r := Returned; } else { r := Failed(StepFailed(RunFull(serial))); }
    }

    /** `runFullSuiteFallbackAndAttest` */
    method RunFullSuite(selection: Option<Selection>) returns (r: Result)
      requires IsClear(trace) && InOrder(trace) && IsHeaded(trace)
      requires if hasDbEnv then |trace| == 9 && FallsBack(trace[8]) else |trace| == 8 && IsUnresolved(trace, 5, 8)
      modifies `trace, `files, `hasDbEnv
      ensures old(trace) <= trace && InOrder(trace) && (r.Returned? <==> IsClear(trace))
      ensures r.Returned? ==> EndsInFullSuite(trace, old(AttestedReport()), HandedOn(selection))
      ensures r.Returned? ==>
                && |trace| >= 4
                && var resolved := if old(hasDbEnv) then [] else [Event(ResolveDbEnv(ForTests), Done)];
                   trace[..|trace| - 4] == old(trace) + resolved
    {
      hide IsClear, InOrder, IsBlocker, Standing;
      r := TestStackDbEnv(ForTests);
      if !r.Returned? { return; }
      ghost var resolved := trace;
      r := RunFullHalf(false);
      if !r.Returned? { return; }
      r := AttestOrThrow(selection);
      if !r.Returned? { return; }
      r := RunFullHalf(true);
      if !r.Returned? { return; }
      r := AttestOrThrow(selection);
      assert trace[..|trace| - 4] == resolved;
    }

    /** Deletes the reports of the push before. */
    method RemoveReports(plan: seq<Invocation>) returns (r: Result, ghost removals: seq<Event>)
      requires HasDistinctReports(plan) && IsClear(trace) && InOrder(trace) && |trace| >= 10
      modifies `trace, `files
      ensures trace == old(trace) + removals && InOrder(trace) && (r.Returned? <==> IsClear(trace))
      ensures r.Returned? ==> AreRemovals(removals, plan)
      ensures r.Returned? ==> forall k :: 0 <= k < |plan| ==> plan[k].junit !in files
      ensures !r.Returned? ==> IsFailedRemoval(removals, plan) && r == Failed(StepFailed(removals[|removals| - 1].call))
      ensures SameAt(MERGED, old(files), files)
    {
      removals := [];
      assert plan[..0] == [] && AreRemovals([], []);
      hide IsClear, InOrder, AreRemovals, IsFailedRemoval;
      for i := 0 to |plan|
        invariant trace == old(trace) + removals && IsClear(trace) && InOrder(trace)
        invariant AreRemovals(removals, plan[..i])
        invariant forall k :: 0 <= k < i ==> plan[k].junit !in files
        invariant SameAt(MERGED, old(files), files)
      {
        ghost var before := trace;
        var reply := Ask(RemoveReport(plan[i].junit));
        ghost var e := Event(RemoveReport(plan[i].junit), reply);
        RemovalAdded(before, removals, plan, i, e);
        removals := removals + [e];
        if !reply.Done? { return Failed(StepFailed(RemoveReport(plan[i].junit))), removals; }
        files := files - {plan[i].junit};
      }
      assert plan[..|plan|] == plan;
      r := Returned;
    }

    /** One `npm run test`, with its own report path. */
    method RunInvocation(invocation: Invocation) returns (ok: bool, ghost e: Event)
      requires invocation.junit !in files && InOrder(trace) && |trace| >= 10
      modifies `trace, `files
      ensures trace == old(trace) + [e] && InOrder(trace)
      ensures e.call == RunHalf(invocation) && ok == RanWell(e.reply)
      ensures IsClear(trace) <==> IsClear(old(trace)) && ok
      ensures files == FilesAfter(old(files), e)
    {
      var reply := Ask(RunHalf(invocation));
      e := trace[|trace| - 1];
      AddEvent(old(trace), e);
      if ReportOf(reply).Some? { files := files[invocation.junit := ReportOf(reply).value]; }
      ok := RanWell(reply);
    }

    /** The loop over the planned halves: a failing one does not keep the next from running. */
    method RunHalves(plan: seq<Invocation>)
      returns (produced: seq<string>, firstFailure: Option<Error>, ghost halves: seq<Event>)
      requires HasDistinctReports(plan) && IsClear(trace) && InOrder(trace) && |trace| >= 10
      requires forall k :: 0 <= k < |plan| ==> plan[k].junit !in files
      modifies `trace, `files
      ensures trace == old(trace) + halves && InOrder(trace)
      ensures AreHalves(halves, plan) && firstFailure == FirstFailure(halves)
      ensures IsClear(trace) <==> firstFailure.None?
      ensures AreIn(produced, files) && Contents(produced, files) == ReportsOf(halves)
      ensures SameAt(MERGED, old(files), files)
    {
      hide InOrder, IsClear;
      produced, firstFailure, halves := [], None, [];
      NoneDone(plan, files);
      for i := 0 to |plan|
        invariant trace == old(trace) + halves && InOrder(trace)
        invariant AreDone(plan, i, halves, produced, files, firstFailure)
        invariant IsClear(trace) <==> firstFailure.None?
        invariant SameAt(MERGED, old(files), files)
      {
        hide InOrder, IsClear, RanWell, ReportOf, HasDistinctReports, FirstFailure, ReportsOf, Contents;
        var ok;
        ghost var e;
        ghost var had := files;
        ok, e := RunInvocation(plan[i]);
        HalfDone(plan, i, halves, produced, had, firstFailure, e);
        if !ok && firstFailure.None? { firstFailure := Some(StepFailed(RunHalf(plan[i]))); }
        if plan[i].junit in files { produced := produced + [plan[i].junit]; }
        halves := halves + [e];
      }
    }

    /** `merge-junit-results`, if any half left a report. */
    method MergeProduced(produced: seq<string>, expected: nat) returns (r: Result, ghost merge: seq<Event>)
      requires AreIn(produced, files) && InOrder(trace) && |trace| >= 10
      modifies `trace, `files
      ensures trace == old(trace) + merge && InOrder(trace)
      ensures produced == [] ==> merge == [] && r == Returned && files == old(files)
      ensures produced != [] ==> |merge| == 1 && merge[0].call == MergeReports(Contents(produced, old(files)), expected)
      ensures produced != [] ==> r == if merge[0].reply.Done? then Returned else Failed(StepFailed(merge[0].call))
      ensures produced != [] && r.Returned? ==>
                MERGED in files && files[MERGED] == MergedFrom(Contents(produced, old(files)))
      ensures IsClear(trace) <==> IsClear(old(trace)) && r.Returned?
    {
      merge := [];
      if produced == [] { return Returned, []; }
      var call := MergeReports(Contents(produced, files), expected);
      var reply := Ask(call);
      AddEvent(old(trace), trace[|trace| - 1]);
      merge := [trace[|trace| - 1]];
      if !reply.Done? { return Failed(StepFailed(call)), merge; }
      files := files[MERGED := MergedFrom(Contents(produced, files))];
      r := Returned;
    }

    /**
     * `runPlaywright` with its plan: either some old report could not be removed, and then nothing
     * ran; or every half was attempted, what was merged are the reports these halves wrote, in the
     * order of the plan, and the result is as the halves and the merge went.
     */
    method RunPlanned(plan: seq<Invocation>)
      returns (r: Result, ghost removals: seq<Event>, ghost halves: seq<Event>, ghost merge: seq<Event>)
      requires HasDistinctReports(plan) && IsClear(trace) && InOrder(trace) && |trace| >= 10
      modifies `trace, `files
      ensures trace == old(trace) + removals + halves + merge && InOrder(trace)
      ensures r.Returned? <==> IsClear(trace)
      ensures AreRemovals(removals, plan) ==>
                AreHalves(halves, plan) && IsMerge(merge, halves) && r == OutcomeOf(halves, merge)
      ensures AreRemovals(removals, plan) && merge == [] ==> SameAt(MERGED, old(files), files)
      ensures r.Returned? && merge != [] ==> MERGED in files && files[MERGED] == MergedFrom(ReportsOf(halves))
      ensures !AreRemovals(removals, plan) ==>
                IsFailedRemoval(removals, plan) && halves == [] && merge == []
                && r == Failed(StepFailed(removals[|removals| - 1].call))
    {
      halves, merge := [], [];
      r, removals := RemoveReports(plan);
      if !r.Returned? { return; }
      var produced, firstFailure;
      produced, firstFailure, halves := RunHalves(plan);
      r, merge := MergeProduced(produced, |plan|);
      if r.Returned? && firstFailure.Some? { r := Failed(firstFailure.value); }
    }

    /** `planTargetedInvocations` */
    method Plan(specFiles: seq<string>) returns (plan: seq<Invocation>, reply: Reply)
      requires IsClear(trace) && InOrder(trace) && IsDue(trace, PlanInvocations(specFiles))
      modifies `trace
      ensures trace == old(trace) + [Event(PlanInvocations(specFiles), reply)] && plan == PlanOf(reply)
      ensures InOrder(trace) && (plan != [] <==> IsClear(trace))
      ensures HasDistinctReports(plan)
    {
      reply := Ask(PlanInvocations(specFiles));
      AddEvent(old(trace), trace[|trace| - 1]);
      plan := PlanOf(reply);
      PlanIsDistinct(reply);
    }

    /** `runPlaywright` on the selected files, then the one attestation. */
    method RunSelected(selection: Selection) returns (r: Result)
      requires IsClear(trace) && InOrder(trace) && hasDbEnv && selection.mode.Targeted?
      requires |trace| == 9 && trace[8] == Event(SelectTests, Selected(selection)) && selection.specFiles != []
      modifies `trace, `files
      ensures old(trace) <= trace && InOrder(trace) && (r.Returned? <==> IsClear(trace))
      ensures r.Returned? ==> EarnedBySelection(trace)
    {
      hide IsClear, InOrder, IsBlocker, AttestationPassed, ReportsOf, FirstFailure, RanWell,
           HasDistinctReports, PlanOf;
      ghost var removals, halves, merge;
      var plan, planned := Plan(selection.specFiles);
      if plan == [] { return Failed(NoTests); }
      r, removals, halves, merge := RunPlanned(plan);
      if !r.Returned? { return; }
      ghost var ran := trace;
      r := AttestOrThrow(Some(selection));
      if r.Returned? {
        assert trace[..|trace| - 1] == ran;
        HasEarned(old(trace), selection, planned, removals, halves, merge, trace);
      }
    }

    /** `main` past the bypass: select, and run what the selection asks for. */
    method SelectAndRun() returns (r: Result)
      requires IsClear(trace) && InOrder(trace) && !hasDbEnv
      requires |trace| == 4 && trace[3].call.BypassIsSet? && trace[3].reply != Answer(true)
      modifies `trace, `files, `hasDbEnv
      ensures old(trace) <= trace && InOrder(trace) && (r.Returned? <==> IsClear(trace))
      ensures r.Returned? ==>
                EarnedBySelection(trace) || EarnedByFullSuite(trace, old(AttestedReport())) || HadNothingToRun(trace)
    {
      hide IsClear, InOrder, EarnedBySelection, EndsInFullSuite;
      r := ResolveHeadSha();
      if !r.Returned? { return; }
      r := RunCreateCoverageDb();
      if !r.Returned? { return; }
      r := RunLoadCoverageMap();
      if !r.Returned? { return; }
      var selection;
      r, selection := RunSelectTests();
      if !r.Returned? { return; }
      ghost var selected := trace;
      ghost var bound := HandedOn(selection);
      if selection.None? {
        r := RunFullSuite(None);
      } else if selection.value.mode.FullSuite? {
        r := RunFullSuite(selection);
      } else if selection.value.specFiles == [] {
        if selection.value.unresolvedTestIds == [] { return; }
        r := RunFullSuite(selection);
      } else {
        r := RunSelected(selection.value);
        return;
      }
      if r.Returned? {
        ghost var before := trace[..|trace| - 4];
        assert before == selected || before == selected + [Event(ResolveDbEnv(ForTests), Done)];
        assert trace[|trace| - 5] == before[|before| - 1];
        HasEarnedInFull(trace, old(AttestedReport()), bound);
      }
    }

    method ResolveHeadSha() returns (r: Result)
      requires IsClear(trace) && InOrder(trace) && IsDue(trace, ResolveHead)
      modifies `trace
      ensures InOrder(trace) && (r.Returned? <==> IsClear(trace))
      ensures |trace| == 5 && trace[..4] == old(trace) && (r.Returned? ==> trace[4] == Event(ResolveHead, Done))
    {
      var reply := Ask(ResolveHead);
      AddEvent(old(trace), trace[|trace| - 1]);
      r := if reply.Done? then Returned else Failed(StepFailed(ResolveHead));
    }

    /** `main` */
    method Gate() returns (r: Result)
      requires trace == [Event(QaE2eExists, Answer(true))] && InOrder(trace) && !hasDbEnv
      modifies `trace, `files, `hasDbEnv
      ensures InOrder(trace) && (r.Returned? <==> IsClear(trace))
      ensures r.Returned? ==> IsEarned(trace, old(AttestedReport()))
    {
      hide EarnedByFullSuite, EarnedBySelection;
      r := RunStaticGates();
      if !r.Returned? { return; }
      ghost var gated := trace;
      var bypass := Ask(BypassIsSet);
      AddEvent(gated, trace[|trace| - 1]);
      if bypass == Answer(true) { return Returned; }
      hide IsClear, InOrder, HadNothingToRun;
      ghost var asked := trace;
      r := SelectAndRun();
      assert trace[..4] == asked;
    }

    /**
     * The hook script. It exits 0 exactly when nothing blocking happened, and then for one of the
     * reasons that let a push through.
     */
    method RunHook() returns (exitCode: int)
      requires trace == [] && !hasDbEnv
      modifies `trace, `files, `hasDbEnv
      ensures exitCode == 0 || exitCode == 1
      ensures exitCode == 0 <==> IsClear(trace)
      ensures exitCode == 0 ==> IsEarned(trace, old(AttestedReport()))
      ensures InOrder(trace)
    {
      var reply := Ask(QaE2eExists);
      AddEvent([], trace[0]);
      if reply != Answer(true) { return 0; }
      var r := Gate();
      exitCode := if r.Returned? then 0 else 1;
    }
  }

  lemma HasEarnedInFull(trace: seq<Event>, report: Option<Report>, bound: Option<Selection>)
    requires |trace| >= 5 && CallsForFullSuite(trace[|trace| - 5], bound) && EndsInFullSuite(trace, report, bound)
    ensures EarnedByFullSuite(trace, report)
  {
  }

  lemma PlanIsDistinct(reply: Reply)
    ensures HasDistinctReports(PlanOf(reply))
  {
    assert NON_SERIAL.junit[22] != SERIAL.junit[22] && NON_SERIAL.junit[0] != MERGED[0] && SERIAL.junit[0] != MERGED[0];
  }

  lemma PlannedHalves(halves: seq<Event>, planned: Reply)
    requires PlanOf(planned) != [] && AreHalves(halves, PlanOf(planned))
    ensures (forall k :: 0 <= k < |halves| ==> RanWell(halves[k].reply)) ==> AllWent(halves, planned)
  {
  }

  lemma HasEarned(before: seq<Event>, selection: Selection, planned: Reply, removals: seq<Event>,
                  halves: seq<Event>, merge: seq<Event>, trace: seq<Event>)
    requires |before| > 0 && before[|before| - 1] == Event(SelectTests, Selected(selection))
    requires |trace| > 0 && trace[..|trace| - 1]
                == before + [Event(PlanInvocations(selection.specFiles), planned)] + removals + halves + merge
    requires selection.mode.Targeted? && PlanOf(planned) != []
    requires AreRemovals(removals, PlanOf(planned)) && AreHalves(halves, PlanOf(planned)) && IsMerge(merge, halves)
    requires OutcomeOf(halves, merge) == Returned && IsAttestedRun(trace[|trace| - 1], selection, halves)
    ensures EarnedBySelection(trace)
  {
    hide ReportsOf, PlanOf;
    var start := before[..|before| - 1];
    var plan := Event(PlanInvocations(selection.specFiles), planned);
    assert start + [Event(SelectTests, Selected(selection)), plan] == before + [plan];
    NoFailure(halves);
    PlannedHalves(halves, planned);
    assert IsSelectedRun(trace, start, selection, planned, removals, halves, merge);
  }

  /** The reports of two halves: what each wrote, if it wrote any, in order. */
  lemma ReportsOfTwo(a: Event, b: Event)
    ensures ReportsOf([a, b])
         == (if a.reply.Ran? && a.reply.report.Some? then [Written(a.reply.report.value)] else [])
            + if b.reply.Ran? && b.reply.report.Some? then [Written(b.reply.report.value)] else []
  {
    assert [a, b][..1] == [a] && [a][..0] == [];
    assert ReportsOf([a]) == if a.reply.Ran? && a.reply.report.Some? then [Written(a.reply.report.value)] else [];
  }

  lemma {:induction false} NoFailure(halves: seq<Event>)
    ensures FirstFailure(halves) == None <==> forall k :: 0 <= k < |halves| ==> RanWell(halves[k].reply)
  {
    if halves != [] {
      NoFailure(halves[1..]);
      assert forall k :: 0 < k < |halves| ==> halves[k] == halves[1..][k - 1];
    }
  }

  /** How the loop stands when `i` halves of the plan have run. */
  ghost predicate AreDone(plan: seq<Invocation>, i: nat, halves: seq<Event>, produced: seq<string>,
                          files: map<string, Report>, firstFailure: Option<Error>)
  {
    && i == |halves| <= |plan| && (forall k :: 0 <= k < i ==> halves[k].call == RunHalf(plan[k]))
    && firstFailure == FirstFailure(halves)
    && AreIn(produced, files) && Contents(produced, files) == ReportsOf(halves)
    && (forall k :: i <= k < |plan| ==> plan[k].junit !in files && plan[k].junit != MERGED)
  }

  function FilesAfter(files: map<string, Report>, e: Event): map<string, Report>
    requires e.call.RunHalf?
  {
    if ReportOf(e.reply).Some? then files[e.call.invocation.junit := ReportOf(e.reply).value] else files
  }

  lemma NoneDone(plan: seq<Invocation>, files: map<string, Report>)
    requires HasDistinctReports(plan) && forall k :: 0 <= k < |plan| ==> plan[k].junit !in files
    ensures AreDone(plan, 0, [], [], files, None)
  {
  }

  lemma HalfDone(plan: seq<Invocation>, i: nat, halves: seq<Event>, produced: seq<string>,
                 files: map<string, Report>, firstFailure: Option<Error>, e: Event)
    requires i < |plan| && HasDistinctReports(plan) && e.call == RunHalf(plan[i])
    requires AreDone(plan, i, halves, produced, files, firstFailure)
    ensures var next := FilesAfter(files, e);
            AreDone(plan, i + 1, halves + [e],
                    if plan[i].junit in next then produced + [plan[i].junit] else produced, next,
                    if firstFailure.None? && !RanWell(e.reply) then Some(StepFailed(e.call)) else firstFailure)
  {
    hide FirstFailure, ReportsOf, Contents, RanWell, ReportOf;
    var next := FilesAfter(files, e);
    FirstFailureSnoc(halves, e);
    ReportsSnoc(halves, e);
    KeptContents(produced, files, next, plan[i].junit);
    if plan[i].junit in next { ContentsSnoc(produced, next, plan[i].junit); }
  }

  function OutcomeOf(halves: seq<Event>, merge: seq<Event>): Result {
    if merge != [] && !merge[0].reply.Done? then Failed(StepFailed(merge[0].call))
    else match FirstFailure(halves)
      case None => Returned
      case Some(e) => Failed(e)
  }

  predicate AreIn(paths: seq<string>, files: map<string, Report>) {
    forall k :: 0 <= k < |paths| ==> paths[k] in files
  }

  function Contents(paths: seq<string>, files: map<string, Report>): seq<Report>
    requires AreIn(paths, files)
  {
    seq(|paths|, k requires 0 <= k < |paths| => files[paths[k]])
  }

  predicate SameAt(path: string, a: map<string, Report>, b: map<string, Report>) {
    (path in a <==> path in b) && (path in a ==> a[path] == b[path])
  }

  lemma KeptContents(paths: seq<string>, a: map<string, Report>, b: map<string, Report>, path: string)
    requires AreIn(paths, a) && path !in a && forall other :: other in a ==> other in b && b[other] == a[other]
    ensures AreIn(paths, b) && Contents(paths, b) == Contents(paths, a)
  {
  }

  lemma ContentsSnoc(paths: seq<string>, files: map<string, Report>, path: string)
    requires AreIn(paths, files) && path in files
    ensures AreIn(paths + [path], files) && Contents(paths + [path], files) == Contents(paths, files) + [files[path]]
  {
  }

  lemma ReportsSnoc(halves: seq<Event>, e: Event)
    ensures ReportsOf(halves + [e])
         == ReportsOf(halves) + if ReportOf(e.reply).Some? then [ReportOf(e.reply).value] else []
  {
    assert (halves + [e])[..|halves|] == halves;
  }

  lemma {:induction false} FirstFailureSnoc(halves: seq<Event>, e: Event)
    ensures FirstFailure(halves + [e])
         == if FirstFailure(halves).Some? then FirstFailure(halves)
            else if RanWell(e.reply) then None else Some(StepFailed(e.call))
  {
    if halves == [] {
      assert [] + [e] == [e] && [e][1..] == [];
    } else {
      assert (halves + [e])[1..] == halves[1..] + [e];
      FirstFailureSnoc(halves[1..], e);
    }
  }

  lemma RemovalAdded(trace: seq<Event>, removals: seq<Event>, plan: seq<Invocation>, i: nat, e: Event)
    requires i < |plan| && IsClear(trace) && AreRemovals(removals, plan[..i])
    requires e.call == RemoveReport(plan[i].junit)
    ensures IsClear(trace + [e]) <==> e.reply.Done?
    ensures if e.reply.Done? then AreRemovals(removals + [e], plan[..i + 1]) else IsFailedRemoval(removals + [e], plan)
  {
    AddEvent(trace, e);
    hide IsClear;
    assert (removals + [e])[..i] == removals;
  }

  lemma AddEvent(trace: seq<Event>, e: Event)
    ensures IsClear(trace + [e]) <==> IsClear(trace) && !IsBlocker(e)
  {
    if IsClear(trace + [e]) {
      assert (trace + [e])[|trace|] == e;
      forall k | 0 <= k < |trace| ensures !IsBlocker(trace[k]) { assert (trace + [e])[k] == trace[k]; }
    }
  }
}
