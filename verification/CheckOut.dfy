/**
 * Checking out of a manual coverage session, client/src/coverageCorrelation.ts, while the dashboard
 * and other tabs go about the same session: a state machine of their atomic steps.
 */
module CheckOut {
  import opened Options

  datatype SessionId = SessionId(uuid: int)

  /** A correlation ID, the only thing the CRM client ever has of a session. */
  datatype Correlation = Correlation(uuid: int)

  datatype Tab = Tab(number: int)

  // ----- the server's sessions -----

  datatype Session = Session(correlation: Correlation, active: bool, version: nat)

  type Sessions = map<SessionId, Session>

  /** `UPDATE … SET status = 'ended', version = version + 1 WHERE id, version and 'active'` */
  function End(sessions: Sessions, sid: SessionId, version: nat): (next: Sessions) {
    if sid in sessions && sessions[sid].version == version && sessions[sid].active then
      sessions[sid := sessions[sid].(active := false, version := version + 1)]
    else sessions
  }

  predicate IsActive(sessions: Sessions, sid: SessionId, c: Correlation) {
    sid in sessions && sessions[sid].active && sessions[sid].correlation == c
  }

  predicate HasActive(sessions: Sessions, c: Correlation) {
    exists sid :: sid in sessions && IsActive(sessions, sid, c)
  }

  // ----- where a tab is in `checkOutCoverageSession` -----

  /** `settled`: the lookup found nothing to end, or the request to end it got through. */
  datatype Progress =
    | Idle
    | Looking(id: Correlation)
    | Ending(id: Correlation, sid: SessionId, version: nat)
    | Clearing(read: Option<Correlation>, settled: bool)
    | Returned(read: Option<Correlation>, settled: bool)
    | Failed(id: Correlation)

  /**
   * `minted` and `mentioned` hold every session ID and every correlation ID there has ever been: a
   * random UUID is none of them. The tabs of a browser share what is persisted; `shown` is what the
   * indicator of each took from there when it last looked, and `ended` what an indicator's lookup has
   * been told is not there.
   */
  datatype State = State(sessions: Sessions, minted: set<SessionId>, mentioned: set<Correlation>,
                         stored: Option<Correlation>, tabs: map<Tab, Progress>,
                         shown: map<Tab, Option<Correlation>>, ended: set<Correlation>)

  datatype Step =
    // the dashboard, the server's retention job (for sessions of any status) and links
    | Start(sid: SessionId, correlation: Correlation)
    | DashboardEnds(sid: SessionId, version: nat)
    | Retire(sid: SessionId)
    | Relay(id: Correlation)
    // the indicator of a tab: it takes up what is persisted, looks it up, and drops what is persisted
    | Poll(tab: Tab)
    | NotFound(id: Correlation)
    | Reconcile(tab: Tab)
    | Forget(tab: Tab)
    // a tab checking out, one atomic action after the other
    | Read(tab: Tab, throws: bool)
    | LookupFinds(tab: Tab, sid: SessionId)
    | LookupFindsNone(tab: Tab)
    | LookupFails(tab: Tab)
    | EndArrives(tab: Tab)
    | EndIsLost(tab: Tab)
    | Clear(tab: Tab, throws: bool)

  function Shown(s: State, tab: Tab): Option<Correlation> { if tab in s.shown then s.shown[tab] else None }

  function At(s: State, tab: Tab): Progress { if tab in s.tabs then s.tabs[tab] else Idle }

  predicate IsEnabled(s: State, step: Step) {
    match step
    case Start(sid, c) => sid !in s.minted && c !in s.mentioned
    case DashboardEnds(_, _) => true
    case Retire(sid) => sid in s.sessions
    case Relay(_) => true
    case Poll(_) => true
    case NotFound(id) => id in s.mentioned && !HasActive(s.sessions, id)
    case Reconcile(tab) => Shown(s, tab).Some? && Shown(s, tab).value in s.ended
    case Forget(_) => true
    case Read(tab, _) => At(s, tab).Idle? || At(s, tab).Returned? || At(s, tab).Failed?
    case LookupFinds(tab, sid) => At(s, tab).Looking? && IsActive(s.sessions, sid, At(s, tab).id)
    case LookupFindsNone(tab) => At(s, tab).Looking? && !HasActive(s.sessions, At(s, tab).id)
    case LookupFails(tab) => At(s, tab).Looking?
    case EndArrives(tab) => At(s, tab).Ending?
    case EndIsLost(tab) => At(s, tab).Ending?
    case Clear(tab, _) => At(s, tab).Clearing?
  }

  function Move(s: State, tab: Tab, to: Progress): State { s.(tabs := s.tabs[tab := to]) }

  /** What the step does. A dump that fails or is not sent changes nothing here. */
  function After(s: State, step: Step): State
    requires IsEnabled(s, step)
  {
    match step
    case Start(sid, c) =>
      s.(sessions := s.sessions[sid := Session(c, true, 0)], minted := s.minted + {sid},
         mentioned := s.mentioned + {c})
    case DashboardEnds(sid, version) => s.(sessions := End(s.sessions, sid, version))
    case Retire(sid) => s.(sessions := s.sessions - {sid})
    case Relay(id) => s.(stored := Some(id), mentioned := s.mentioned + {id})
    case Poll(tab) => s.(shown := s.shown[tab := s.stored])
    case NotFound(id) => s.(ended := s.ended + {id})
    case Reconcile(_) => s.(stored := None)
    case Forget(tab) => s.(shown := s.shown[tab := None])
    case Read(tab, throws) =>
      if throws || s.stored.None? then Move(s, tab, Clearing(None, true))
      else Move(s, tab, Looking(s.stored.value))
    case LookupFinds(tab, sid) => Move(s, tab, Ending(At(s, tab).id, sid, s.sessions[sid].version))
    case LookupFindsNone(tab) => Move(s, tab, Clearing(Some(At(s, tab).id), true))
    case LookupFails(tab) => Move(s, tab, Failed(At(s, tab).id))
    case EndArrives(tab) =>
      var at := At(s, tab);
      Move(s.(sessions := End(s.sessions, at.sid, at.version)), tab, Clearing(Some(at.id), true))
    case EndIsLost(tab) => Move(s, tab, Clearing(Some(At(s, tab).id), false))
    case Clear(tab, throws) =>
      var at := At(s, tab);
      Move(if throws then s else s.(stored := None), tab, Returned(at.read, at.settled))
  }

  /** A run: every step enabled where it is taken. */
  ghost predicate IsRun(states: seq<State>, steps: seq<Step>) {
    && |states| == |steps| + 1
    && forall k :: 0 <= k < |steps| ==> IsStep(states, steps, k)
  }

  ghost predicate IsStep(states: seq<State>, steps: seq<Step>, k: int)
    requires 0 <= k < |steps| < |states|
  {
    IsEnabled(states[k], steps[k]) && states[k + 1] == After(states[k], steps[k])
  }

  lemma StepOf(states: seq<State>, steps: seq<Step>, k: nat)
    requires IsRun(states, steps) && k < |steps|
    ensures IsEnabled(states[k], steps[k]) && states[k + 1] == After(states[k], steps[k])
  {
    assert IsStep(states, steps, k);
  }

  lemma RunHasStates(states: seq<State>, steps: seq<Step>)
    requires IsRun(states, steps)
    ensures |states| == |steps| + 1
  {
  }

  lemma RunSnoc(states: seq<State>, steps: seq<Step>, step: Step)
    requires IsRun(states, steps) && IsEnabled(states[|steps|], step)
    ensures IsRun(states + [After(states[|steps|], step)], steps + [step])
  {
    var longer, more := states + [After(states[|steps|], step)], steps + [step];
    forall k | 0 <= k < |more| ensures IsStep(longer, more, k) {
      if k < |steps| { assert IsStep(states, steps, k); }
    }
  }

  // ----- what every step keeps -----

  ghost predicate IsTracked(s: State, at: Progress) {
    match at
    case Idle => true
    case Looking(id) => id in s.mentioned
    case Ending(id, sid, version) =>
      id in s.mentioned && sid in s.minted && IsKnown(s, id, sid, version)
    case Clearing(read, settled) => read.Some? ==> IsSettled(s, read.value, settled)
    case Returned(read, settled) => read.Some? ==> IsSettled(s, read.value, settled)
    case Failed(id) => id in s.mentioned
  }

  /** The session found is the only one its ID can be active for, and as it was while it is active. */
  ghost predicate IsKnown(s: State, id: Correlation, sid: SessionId, version: nat) {
    && (sid in s.sessions ==> s.sessions[sid].correlation == id)
    && forall other :: IsActive(s.sessions, other, id) ==> other == sid && s.sessions[sid].version == version
  }

  ghost predicate IsSettled(s: State, id: Correlation, settled: bool) {
    id in s.mentioned && (settled ==> !HasActive(s.sessions, id))
  }

  ghost predicate IsSound(s: State) {
    && (forall sid :: sid in s.sessions ==> sid in s.minted && s.sessions[sid].correlation in s.mentioned)
    && (forall a, b :: a in s.sessions && b in s.sessions && s.sessions[a].correlation == s.sessions[b].correlation
                       ==> a == b)
    && (s.stored.Some? ==> s.stored.value in s.mentioned)
    && (forall id :: id in s.ended ==> id in s.mentioned && !HasActive(s.sessions, id))
    && (forall tab :: tab in s.tabs ==> IsTracked(s, s.tabs[tab]))
  }

  /** Nothing but fresh IDs becomes active, and no active session changes but by ending. */
  ghost predicate OnlyEnds(s: State, t: State) {
    && s.minted <= t.minted && s.mentioned <= t.mentioned
    && (forall sid :: sid in t.sessions && sid in s.minted ==>
          sid in s.sessions && t.sessions[sid].correlation == s.sessions[sid].correlation
          && (t.sessions[sid].active ==> t.sessions[sid] == s.sessions[sid]))
    && (forall sid :: sid in t.sessions && sid !in s.minted ==> t.sessions[sid].correlation !in s.mentioned)
  }

  lemma StepOnlyEnds(s: State, step: Step)
    requires IsSound(s) && IsEnabled(s, step)
    ensures OnlyEnds(s, After(s, step))
  {
  }

  /** An end request changes a session exactly when that one is active at the version the request names. */
  lemma EndNeedsVersion(s: State, sid: SessionId, version: nat, other: SessionId)
    requires other in s.sessions
    ensures var before, t := s.sessions[other], After(s, DashboardEnds(sid, version));
            && other in t.sessions && t.sessions[other].correlation == before.correlation
            && (t.sessions[other] != before <==> other == sid && before.active && before.version == version)
            && (t.sessions[other] != before ==> !t.sessions[other].active && t.sessions[other].version == version + 1)
  {
  }

  lemma StillTracked(s: State, t: State, at: Progress)
    requires IsSound(s) && OnlyEnds(s, t) && IsTracked(s, at)
    ensures IsTracked(t, at)
  {
    forall sid, c | c in s.mentioned && IsActive(t.sessions, sid, c) ensures IsActive(s.sessions, sid, c) {
    }
  }

  lemma StillEnded(s: State, t: State, id: Correlation)
    requires IsSound(s) && OnlyEnds(s, t) && id in s.mentioned && !HasActive(s.sessions, id)
    ensures id in t.mentioned && !HasActive(t.sessions, id)
  {
    forall sid ensures !IsActive(t.sessions, sid, id) {
      assert IsActive(t.sessions, sid, id) ==> IsActive(s.sessions, sid, id);
    }
  }

  lemma {:induction false} StepKeepsSound(s: State, step: Step)
    requires IsSound(s) && IsEnabled(s, step)
    ensures IsSound(After(s, step))
  {
    var t := After(s, step);
    StepOnlyEnds(s, step);
    forall id | id in t.ended ensures id in t.mentioned && !HasActive(t.sessions, id) {
      if id in s.ended { StillEnded(s, t, id); }
    }
    forall tab | tab in t.tabs ensures IsTracked(t, t.tabs[tab]) {
      if tab in s.tabs && t.tabs[tab] == s.tabs[tab] {
        StillTracked(s, t, s.tabs[tab]);
      } else {
        MovedIsTracked(s, step, tab);
      }
    }
  }

  lemma EndSettles(s: State, at: Progress)
    requires at.Ending? && IsTracked(s, at)
    ensures var next := End(s.sessions, at.sid, at.version);
            && !HasActive(next, at.id)
            && next == if IsActive(s.sessions, at.sid, at.id)
                       then s.sessions[at.sid := Session(at.id, false, at.version + 1)]
                       else s.sessions
  {
    var next, id := End(s.sessions, at.sid, at.version), at.id;
    forall other ensures !IsActive(next, other, id) {
      assert IsActive(next, other, id) ==> IsActive(s.sessions, other, id);
    }
  }

  lemma MovedIsTracked(s: State, step: Step, tab: Tab)
    requires IsSound(s) && IsEnabled(s, step)
    requires var t := After(s, step); tab in t.tabs && !(tab in s.tabs && t.tabs[tab] == s.tabs[tab])
    ensures var t := After(s, step); IsTracked(t, t.tabs[tab])
  {
    var t := After(s, step);
    StepOnlyEnds(s, step);
    StillTracked(s, t, At(s, tab));
    if step.EndArrives? { EndSettles(s, At(s, tab)); }
  }

  /** No tab has begun. */
  ghost predicate IsStart(s: State) { IsSound(s) && s.tabs == map[] && s.shown == map[] }

  lemma {:induction false} RunKeepsSound(states: seq<State>, steps: seq<Step>, k: nat)
    requires IsRun(states, steps) && IsSound(states[0]) && k < |states|
    ensures IsSound(states[k])
  {
    if k > 0 {
      RunKeepsSound(states, steps, k - 1);
      StepOf(states, steps, k - 1);
      StepKeepsSound(states[k - 1], steps[k - 1]);
    }
  }

  // ----- a check-out that returns -----

  /**
   * In every interleaving: a check-out that has returned leaves no active session with its ID, now
   * or later, unless the request to end it was lost.
   */
  lemma ReturnLeavesNoSession(states: seq<State>, steps: seq<Step>, k: nat, tab: Tab)
    requires IsRun(states, steps) && IsStart(states[0]) && k < |states|
    requires At(states[k], tab).Returned? && At(states[k], tab).read.Some? && At(states[k], tab).settled
    ensures !HasActive(states[k].sessions, At(states[k], tab).read.value)
  {
    RunKeepsSound(states, steps, k);
  }

  /**
   * A request that gets through ends the session, unless another end or the retention job came
   * first; there is no other conflict.
   */
  lemma ArrivedEndLosesOnlyToAnEnd(s: State, tab: Tab)
    requires IsSound(s) && IsEnabled(s, EndArrives(tab))
    ensures var at := At(s, tab); var t := After(s, EndArrives(tab));
            && !HasActive(t.sessions, at.id)
            && (t.sessions != s.sessions <==> IsActive(s.sessions, at.sid, at.id))
            && (t.sessions != s.sessions ==> t.sessions == s.sessions[at.sid := Session(at.id, false, at.version + 1)])
  {
    EndSettles(s, At(s, tab));
  }

  /** While nobody else ends it, the session is left active exactly when the request was lost. */
  lemma LeftActiveExactly(s: State, tab: Tab, step: Step)
    requires IsSound(s) && IsEnabled(s, step) && (step == EndArrives(tab) || step == EndIsLost(tab))
    requires IsActive(s.sessions, At(s, tab).sid, At(s, tab).id)
    ensures HasActive(After(s, step).sessions, At(s, tab).id) <==> step == EndIsLost(tab)
  {
    if step == EndArrives(tab) { ArrivedEndLosesOnlyToAnEnd(s, tab); }
  }

  // ----- what is dropped, and when -----

  /** The answer that allows a tab to drop the ID it read: found, none found, or no ID read at all. */
  predicate Answers(s: State, step: Step, tab: Tab, read: Option<Correlation>) {
    match step
    case LookupFinds(t, _) => t == tab && At(s, tab).Looking? && read == Some(At(s, tab).id)
    case LookupFindsNone(t) => t == tab && At(s, tab).Looking? && read == Some(At(s, tab).id)
    case Read(t, throws) => t == tab && read == None && (throws || s.stored == None)
    case _ => false
  }

  predicate Begins(step: Step, tab: Tab) { step.Read? && step.tab == tab }

  /** Step `j` gave the answer, and the tab has not begun anew before step `k`. */
  predicate IsAnswer(states: seq<State>, steps: seq<Step>, j: int, k: nat, tab: Tab, read: Option<Correlation>)
    requires k <= |steps| < |states|
  {
    0 <= j < k && Answers(states[j], steps[j], tab, read) && forall i :: j < i < k ==> !Begins(steps[i], tab)
  }

  ghost predicate IsAnswered(states: seq<State>, steps: seq<Step>, k: nat, tab: Tab, read: Option<Correlation>)
    requires k <= |steps| < |states|
  {
    exists j :: IsAnswer(states, steps, j, k, tab, read)
  }

  function ReadBy(at: Progress): Option<Correlation>
    requires at.Ending? || at.Clearing?
  {
    if at.Ending? then Some(at.id) else at.read
  }

  lemma {:induction false} ClearingIsAnswered(states: seq<State>, steps: seq<Step>, k: nat, tab: Tab)
    requires IsRun(states, steps) && IsStart(states[0]) && k <= |steps|
    requires At(states[k], tab).Ending? || At(states[k], tab).Clearing?
    ensures IsAnswered(states, steps, k, tab, ReadBy(At(states[k], tab)))
  {
    var step := steps[k - 1];
    StepOf(states, steps, k - 1);
    var read := ReadBy(At(states[k], tab));
    if Answers(states[k - 1], step, tab, read) {
      assert IsAnswer(states, steps, k - 1, k, tab, read);
    } else {
      ClearingIsAnswered(states, steps, k - 1, tab);
      var j :| IsAnswer(states, steps, j, k - 1, tab, ReadBy(At(states[k - 1], tab)));
      assert IsAnswer(states, steps, j, k, tab, read);
    }
  }

  /** The persisted ID is dropped by a check-out only after the lookup has answered, or if none was read. */
  lemma DroppedOnlyWhenAnswered(states: seq<State>, steps: seq<Step>, k: nat, tab: Tab, throws: bool)
    requires IsRun(states, steps) && IsStart(states[0]) && k < |steps| && steps[k] == Clear(tab, throws)
    ensures At(states[k], tab).Clearing? && IsAnswered(states, steps, k, tab, At(states[k], tab).read)
  {
    StepOf(states, steps, k);
    ClearingIsAnswered(states, steps, k, tab);
  }

  /** After a lookup that failed the tab drops nothing until it begins anew. */
  lemma {:induction false} KeptWhenLookupFails(states: seq<State>, steps: seq<Step>, j: nat, k: nat, tab: Tab)
    requires IsRun(states, steps) && j < k <= |steps| && steps[j] == LookupFails(tab)
    requires forall i :: j < i < k ==> !Begins(steps[i], tab)
    ensures At(states[k], tab).Failed? && states[j + 1].stored == states[j].stored
    ensures k < |steps| ==> !steps[k].Clear? || steps[k].tab != tab
  {
    StepOf(states, steps, j);
    if k > j + 1 {
      KeptWhenLookupFails(states, steps, j, k - 1, tab);
      StepOf(states, steps, k - 1);
    }
    if k < |steps| { StepOf(states, steps, k); }
  }

  /** As long as no tab persists another ID, what is dropped is the ID that was read, if it is still there. */
  lemma {:induction false} StoredIsWhatWasRead(states: seq<State>, steps: seq<Step>, j: nat, k: nat)
    requires IsRun(states, steps) && j <= k <= |steps|
    requires forall i :: j <= i < k ==> !steps[i].Relay?
    ensures states[k].stored == states[j].stored || states[k].stored == None
  {
    if k > j {
      StoredIsWhatWasRead(states, steps, j, k - 1);
      StepOf(states, steps, k - 1);
    }
  }

  /** The tab last began, before step `k`, at step `j`. */
  predicate IsLastRead(steps: seq<Step>, j: int, k: nat, tab: Tab)
    requires k <= |steps|
  {
    0 <= j < k && Begins(steps[j], tab) && forall i :: j < i < k ==> !Begins(steps[i], tab)
  }

  lemma {:induction false} HasLastRead(states: seq<State>, steps: seq<Step>, k: nat, tab: Tab)
    requires IsRun(states, steps) && IsStart(states[0]) && k <= |steps| && !At(states[k], tab).Idle?
    ensures exists j :: IsLastRead(steps, j, k, tab)
  {
    StepOf(states, steps, k - 1);
    if Begins(steps[k - 1], tab) {
      assert IsLastRead(steps, k - 1, k, tab);
    } else {
      HasLastRead(states, steps, k - 1, tab);
      var j :| IsLastRead(steps, j, k - 1, tab);
      assert IsLastRead(steps, j, k, tab);
    }
  }

  function IdOf(at: Progress): Option<Correlation> {
    match at
    case Idle => None
    case Looking(id) => Some(id)
    case Ending(id, _, _) => Some(id)
    case Clearing(read, _) => read
    case Returned(read, _) => read
    case Failed(id) => Some(id)
  }

  lemma StepKeepsId(s: State, step: Step, tab: Tab)
    requires IsEnabled(s, step)
    ensures IdOf(At(After(s, step), tab))
         == if !Begins(step, tab) then IdOf(At(s, tab)) else if step.throws then None else s.stored
  {
    if !IsBy(step, tab) { OthersLeaveTab(s, step, tab); }
  }

  /** Until it begins anew, a tab works for the ID it read. */
  lemma {:induction false} WorksForWhatItRead(states: seq<State>, steps: seq<Step>, j: nat, k: nat, tab: Tab)
    requires IsRun(states, steps) && k <= |steps| && IsLastRead(steps, j, k, tab)
    ensures IdOf(At(states[k], tab)) == if steps[j].throws then None else states[j].stored
    decreases k - j
  {
    StepOf(states, steps, k - 1);
    hide IsRun, IsEnabled, After, IdOf, At;
    StepKeepsId(states[k - 1], steps[k - 1], tab);
    if k > j + 1 {
      assert IsLastRead(steps, j, k - 1, tab);
      WorksForWhatItRead(states, steps, j, k - 1, tab);
    }
  }

  predicate HasRelay(steps: seq<Step>, j: int, k: nat)
    requires 0 <= j < k <= |steps|
  {
    exists r :: j < r < k && steps[r].Relay?
  }

  /** The last link opened between steps `j` and `k`, if there was one, persisted this ID. */
  predicate LastRelayIs(steps: seq<Step>, j: int, k: nat, id: Correlation)
    requires 0 <= j < k <= |steps|
  {
    forall r :: j < r < k && steps[r].Relay? && (forall i :: r < i < k ==> !steps[i].Relay?) ==> steps[r].id == id
  }

  lemma StoredBefore(s: State, step: Step, x: Correlation)
    requires IsEnabled(s, step) && After(s, step).stored == Some(x)
    ensures if step.Relay? then step.id == x else s.stored == Some(x)
  {
  }

  /** What is persisted came with the last link opened since, or was there before. */
  lemma {:induction false} StoredCameFrom(states: seq<State>, steps: seq<Step>, j: nat, k: nat, x: Correlation)
    requires IsRun(states, steps) && j < k <= |steps| && !steps[j].Relay? && states[k].stored == Some(x)
    ensures if HasRelay(steps, j, k) then LastRelayIs(steps, j, k, x)
            else states[j].stored == Some(x)
    decreases k - j
  {
    hide *;
    RunHasStates(states, steps);
    StepOf(states, steps, k - 1);
    StoredBefore(states[k - 1], steps[k - 1], x);
    OneMoreRelay(steps, j, k, x);
    if !steps[k - 1].Relay? && k > j + 1 { StoredCameFrom(states, steps, j, k - 1, x); }
  }

  lemma OneMoreRelay(steps: seq<Step>, j: nat, k: nat, id: Correlation)
    requires j < k <= |steps| && !steps[j].Relay?
    ensures HasRelay(steps, j, k) <==> steps[k - 1].Relay? || (k > j + 1 && HasRelay(steps, j, k - 1))
    ensures if steps[k - 1].Relay? then (steps[k - 1].id == id ==> LastRelayIs(steps, j, k, id))
            else (k > j + 1 && LastRelayIs(steps, j, k - 1, id) ==> LastRelayIs(steps, j, k, id))
  {
  }

  lemma {:induction false} HasLastRelay(steps: seq<Step>, j: nat, k: nat)
    requires j < k <= |steps| && HasRelay(steps, j, k)
    ensures exists r :: j < r < k && steps[r].Relay? && forall i :: r < i < k ==> !steps[i].Relay?
    decreases k - j
  {
    if steps[k - 1].Relay? && k - 1 > j {
      assert j < k - 1 < k && steps[k - 1].Relay?;
    } else {
      HasLastRelay(steps, j, k - 1);
      var r :| j < r < k - 1 && steps[r].Relay? && forall i :: r < i < k - 1 ==> !steps[i].Relay?;
      assert j < r < k && steps[r].Relay? && forall i :: r < i < k ==> !steps[i].Relay?;
    }
  }

  /**
   * Exactly when a check-out drops the ID it looked up: in every run, the ID that a tab drops is the
   * one its lookup answered for if and only if its last read did not throw and found an ID, and the
   * last link opened since then, if any, persisted that same ID.
   */
  lemma DropsWhatItLookedUpExactly(states: seq<State>, steps: seq<Step>, k: nat, tab: Tab, x: Correlation)
    requires IsRun(states, steps) && IsStart(states[0])
    requires k < |steps| && steps[k] == Clear(tab, false) && states[k].stored == Some(x)
    ensures At(states[k], tab).Clearing? && states[k + 1].stored == None
    ensures exists j :: IsLastRead(steps, j, k, tab) &&
              (At(states[k], tab).read == Some(x) <==>
               !steps[j].throws && states[j].stored.Some? && LastRelayIs(steps, j, k, states[j].stored.value))
  {
    StepOf(states, steps, k);
    HasLastRead(states, steps, k, tab);
    var j :| IsLastRead(steps, j, k, tab);
    WorksForWhatItRead(states, steps, j, k, tab);
    StoredCameFrom(states, steps, j, k, x);
    if HasRelay(steps, j, k) { HasLastRelay(steps, j, k); }
  }

  // ----- what an indicator drops -----

  predicate Looks(step: Step, tab: Tab) { (step.Poll? || step.Forget?) && step.tab == tab }

  /** The tab's indicator last looked, before step `k`, at step `j`. */
  predicate IsLastLook(steps: seq<Step>, j: int, k: nat, tab: Tab)
    requires k <= |steps|
  {
    0 <= j < k && Looks(steps[j], tab) && forall i :: j < i < k ==> !Looks(steps[i], tab)
  }

  lemma {:induction false} ShownIsWhatItLookedAt(states: seq<State>, steps: seq<Step>, k: nat, tab: Tab)
    requires IsRun(states, steps) && IsStart(states[0]) && k <= |steps| && Shown(states[k], tab).Some?
    ensures exists j :: IsLastLook(steps, j, k, tab) && steps[j].Poll? && states[j].stored == Shown(states[k], tab)
  {
    StepOf(states, steps, k - 1);
    if Looks(steps[k - 1], tab) {
      assert IsLastLook(steps, k - 1, k, tab);
    } else {
      ShownIsWhatItLookedAt(states, steps, k - 1, tab);
      var j :| IsLastLook(steps, j, k - 1, tab) && steps[j].Poll? && states[j].stored == Shown(states[k - 1], tab);
      assert IsLastLook(steps, j, k, tab);
    }
  }

  /**
   * An indicator drops what is persisted on account of an ID that has no active session, now or
   * later. In every run, what it drops is that ID if and only if the last link opened since it
   * looked, if any, persisted that same ID; so an ID with an active session goes only if it came
   * with a link opened since.
   */
  lemma ReconcileDropsTheEndedExactly(states: seq<State>, steps: seq<Step>, k: nat, tab: Tab, x: Correlation)
    requires IsRun(states, steps) && IsStart(states[0])
    requires k < |steps| && steps[k] == Reconcile(tab) && states[k].stored == Some(x)
    ensures Shown(states[k], tab).Some? && states[k + 1].stored == None
    ensures !HasActive(states[k].sessions, Shown(states[k], tab).value)
    ensures exists j :: IsLastLook(steps, j, k, tab) && steps[j].Poll? && states[j].stored == Shown(states[k], tab) &&
              (Shown(states[k], tab) == Some(x) <==> LastRelayIs(steps, j, k, Shown(states[k], tab).value))
  {
    StepOf(states, steps, k);
    RunKeepsSound(states, steps, k);
    ShownIsWhatItLookedAt(states, steps, k, tab);
    var j :| IsLastLook(steps, j, k, tab) && steps[j].Poll? && states[j].stored == Shown(states[k], tab);
    StoredCameFrom(states, steps, j, k, x);
    if HasRelay(steps, j, k) { HasLastRelay(steps, j, k); }
  }

  // ----- the check-out as it runs -----

  predicate IsBy(step: Step, tab: Tab) {
    (step.Read? || step.LookupFinds? || step.LookupFindsNone? || step.LookupFails? || step.EndArrives?
     || step.EndIsLost? || step.Clear?) && step.tab == tab
  }

  /** The steps of one tab's check-outs. */
  function OwnSteps(steps: seq<Step>, tab: Tab): seq<Step> {
    if steps == [] then []
    else
      var last := steps[|steps| - 1];
      OwnSteps(steps[..|steps| - 1], tab) + if IsBy(last, tab) then [last] else []
  }

  lemma OwnStepsSnoc(steps: seq<Step>, step: Step, tab: Tab)
    ensures OwnSteps(steps + [step], tab) == OwnSteps(steps, tab) + if IsBy(step, tab) then [step] else []
  {
    assert (steps + [step])[..|steps|] == steps;
  }

  /** What follows a lookup for an ID: nothing if it failed; else the session it found, if any, is ended. */
  function AfterLookup(tab: Tab, answers: bool, found: Option<SessionId>, endArrives: bool): seq<Step> {
    if !answers then [LookupFails(tab)]
    else if found.None? then [LookupFindsNone(tab)]
    else [LookupFinds(tab, found.value), if endArrives then EndArrives(tab) else EndIsLost(tab)]
  }

  /** The steps of one check-out, in order; `looks` if it read an ID to look up. */
  function ScriptOf(tab: Tab, getItemThrows: bool, looks: bool, answers: bool, found: Option<SessionId>,
                    endArrives: bool, removeItemThrows: bool): seq<Step>
  {
    [Read(tab, getItemThrows)]
    + (if looks then AfterLookup(tab, answers, found, endArrives) else [])
    + if looks && !answers then [] else [Clear(tab, removeItemThrows)]
  }

  lemma ReadLooks(s: State, tab: Tab, throws: bool)
    requires IsEnabled(s, Read(tab, throws))
    ensures At(After(s, Read(tab, throws)), tab).Looking? <==> s.stored.Some? && !throws
  {
  }

  lemma ClearDrops(s: State, tab: Tab, throws: bool)
    requires IsEnabled(s, Clear(tab, throws))
    ensures After(s, Clear(tab, throws)).stored == if throws then s.stored else None
  {
  }

  /** From step `from` on the tab has not touched what is persisted. */
  ghost predicate ClearsNothing(steps: seq<Step>, from: nat, tab: Tab) {
    forall k :: from <= k < |steps| ==> !(steps[k].Clear? && steps[k].tab == tab)
  }

  lemma OthersLeaveTab(s: State, step: Step, tab: Tab)
    requires IsEnabled(s, step) && !IsBy(step, tab)
    ensures At(After(s, step), tab) == At(s, tab)
  {
  }

  lemma OwnStepMoves(s: State, step: Step, tab: Tab)
    requires IsEnabled(s, step) && IsBy(step, tab)
    ensures var from, to := At(s, tab), At(After(s, step), tab);
            match step
            case Read(_, _) => to.Looking? || (to.Clearing? && to.read == None)
            case LookupFinds(_, _) => to.Ending?
            case LookupFindsNone(_) => to.Clearing? && to.settled
            case LookupFails(_) => to.Failed?
            case EndArrives(_) => to.Clearing? && to.settled
            case EndIsLost(_) => to.Clearing?
            case Clear(_, _) => to == Returned(from.read, from.settled)
            case _ => true
  {
  }

  lemma SettledNow(states: seq<State>, steps: seq<Step>, tab: Tab)
    requires IsRun(states, steps) && IsStart(states[0])
    ensures var at := At(states[|steps|], tab);
            at.Returned? && at.read.Some? && at.settled ==> !HasActive(states[|steps|].sessions, at.read.value)
  {
    RunKeepsSound(states, steps, |steps|);
  }

  /** The shared world of one run, and what the other parties try to do while a tab waits. */
  class World {
    const others: (State, nat) -> seq<Step>
    var state: State
    var time: nat
    ghost var states: seq<State>
    ghost var steps: seq<Step>

    ghost predicate Valid()
      reads this
    {
      IsRun(states, steps) && IsStart(states[0]) && states[|steps|] == state
    }

    constructor (start: State, others: (State, nat) -> seq<Step>)
      requires IsStart(start)
      ensures Valid() && state == start && steps == []
    {
      this.others, state, time := others, start, 0;
      states, steps := [start], [];
    }

    method Take(step: Step)
      requires Valid() && IsEnabled(state, step)
      modifies this
      ensures Valid() && state == After(old(state), step)
      ensures steps == old(steps) + [step] && states == old(states) + [state]
      ensures forall tab :: OwnSteps(steps, tab) == OwnSteps(old(steps), tab) + if IsBy(step, tab) then [step] else []
    {
      forall tab { OwnStepsSnoc(steps, step, tab); }
      RunSnoc(states, steps, step);
      state := After(state, step);
      states, steps := states + [state], steps + [step];
    }

    /** While the tab waits, the others do what they like, as far as they can. */
    method Await(tab: Tab)
      requires Valid()
      modifies this
      ensures Valid() && At(state, tab) == old(At(state, tab))
      ensures old(steps) <= steps && old(states) <= states
      ensures forall k :: |old(steps)| <= k < |steps| ==> !IsBy(steps[k], tab)
      ensures OwnSteps(steps, tab) == OwnSteps(old(steps), tab)
    {
      var todo := others(state, time);
      time := time + 1;
      for k := 0 to |todo|
        invariant Valid() && At(state, tab) == old(At(state, tab))
        invariant old(steps) <= steps && old(states) <= states && OwnSteps(steps, tab) == OwnSteps(old(steps), tab)
        invariant forall k :: |old(steps)| <= k < |steps| ==> !IsBy(steps[k], tab)
      {
        if !IsBy(todo[k], tab) && IsEnabled(state, todo[k]) {
          OthersLeaveTab(state, todo[k], tab);
          Take(todo[k]);
        }
      }
    }

    /** The lookup, and the request to end what it found. */
    method LookUpAndEnd(tab: Tab, lookupAnswers: bool, endArrives: bool)
      returns (thrown: bool, ghost found: Option<SessionId>)
      requires Valid() && At(state, tab).Looking?
      modifies this
      ensures Valid() && old(steps) <= steps
      ensures thrown <==> !lookupAnswers
      ensures found.Some? <==> lookupAnswers && HasActive(old(state).sessions, old(At(state, tab)).id)
      ensures OwnSteps(steps, tab) == OwnSteps(old(steps), tab) + AfterLookup(tab, lookupAnswers, found, endArrives)
      ensures if thrown then At(state, tab).Failed? else At(state, tab).Clearing?
      ensures !thrown && endArrives ==> At(state, tab).settled
      ensures ClearsNothing(steps, |old(steps)|, tab)
    {
      hide After, IsRun, IsSound, IsStart, IsActive, OwnSteps;
      found := None;
      if !lookupAnswers {
        OwnStepMoves(state, LookupFails(tab), tab);
        Take(LookupFails(tab));
        return true, None;
      }
      if sid :| sid in state.sessions && IsActive(state.sessions, sid, At(state, tab).id) {
        OwnStepMoves(state, LookupFinds(tab, sid), tab);
        found := Some(sid);
        Take(LookupFinds(tab, sid));
        Await(tab);
        EndFound(tab, endArrives);
      } else {
        OwnStepMoves(state, LookupFindsNone(tab), tab);
        Take(LookupFindsNone(tab));
      }
      thrown := false;
    }

    /** `endCoverageSessionOnServer(…).catch(() => undefined)` */
    method EndFound(tab: Tab, endArrives: bool)
      requires Valid() && At(state, tab).Ending?
      modifies this
      ensures Valid() && old(steps) <= steps && At(state, tab).Clearing?
      ensures endArrives ==> At(state, tab).settled
      ensures ClearsNothing(steps, |old(steps)|, tab)
      ensures OwnSteps(steps, tab)
           == OwnSteps(old(steps), tab) + [if endArrives then EndArrives(tab) else EndIsLost(tab)]
    {
      hide After, IsRun, IsSound, IsStart, IsActive, OwnSteps;
      var step := if endArrives then EndArrives(tab) else EndIsLost(tab);
      OwnStepMoves(state, step, tab);
      Take(step);
    }

    /**
     * `checkOutCoverageSession`, with everybody else at work between its steps: what it does is a
     * run of the machine above, so all that is proved of runs holds of it.
     */
    method CheckOutCoverageSession(tab: Tab, getItemThrows: bool, lookupAnswers: bool, endArrives: bool,
                                   removeItemThrows: bool)
      returns (thrown: bool, ghost found: Option<SessionId>)
      requires Valid() && IsEnabled(state, Read(tab, getItemThrows))
      modifies this
      ensures Valid() && old(steps) <= steps
      ensures thrown <==> old(state).stored.Some? && !getItemThrows && !lookupAnswers
      ensures OwnSteps(steps, tab)
           == OwnSteps(old(steps), tab) + ScriptOf(tab, getItemThrows, old(state).stored.Some? && !getItemThrows,
                                                   lookupAnswers, found, endArrives, removeItemThrows)
      ensures !thrown && !removeItemThrows ==> state.stored == None
      ensures thrown ==> At(state, tab).Failed? && ClearsNothing(steps, |old(steps)|, tab)
      ensures !thrown ==> At(state, tab).Returned? && steps[|steps| - 1] == Clear(tab, removeItemThrows)
      ensures !thrown && At(state, tab).read.Some? && endArrives ==>
                !HasActive(state.sessions, At(state, tab).read.value)
    {
      hide After, IsRun, IsSound, IsStart, IsActive, HasActive, OwnSteps;
      found := None;
      ReadLooks(state, tab, getItemThrows);
      OwnStepMoves(state, Read(tab, getItemThrows), tab);
      Take(Read(tab, getItemThrows));
      Await(tab);
      if At(state, tab).Looking? {
        thrown, found := LookUpAndEnd(tab, lookupAnswers, endArrives);
        if thrown { return; }
        Await(tab);
      }
      OwnStepMoves(state, Clear(tab, removeItemThrows), tab);
      ClearDrops(state, tab, removeItemThrows);
      Take(Clear(tab, removeItemThrows));
      SettledNow(states, steps, tab);
      thrown := false;
    }
  }

  // ----- where the promise does not hold -----

  /** A storage that throws on reading passes for no ID: it is dropped, its session untouched and never looked up. */
  lemma ThrowingReadDropsTheId(s: State, tab: Tab, c: Correlation)
    requires s.stored == Some(c) && HasActive(s.sessions, c) && At(s, tab).Idle?
    ensures IsEnabled(s, Read(tab, true))
    ensures var t := After(s, Read(tab, true));
            IsEnabled(t, Clear(tab, false)) && After(t, Clear(tab, false)).stored == None
            && HasActive(After(t, Clear(tab, false)).sessions, c)
  {
  }

  /** A request to end the session that is lost is swallowed: the session stays active and its ID is gone. */
  lemma LostEndOrphansTheSession(s: State, tab: Tab, sid: SessionId, c: Correlation)
    requires s.stored == Some(c) && IsActive(s.sessions, sid, c) && At(s, tab).Idle?
    ensures var steps := [Read(tab, false), LookupFinds(tab, sid), EndIsLost(tab), Clear(tab, false)];
            exists states: seq<State> :: IsRun(states, steps) && states[0] == s && states[4].stored == None
                             && HasActive(states[4].sessions, c) && At(states[4], tab) == Returned(Some(c), false)
  {
    var steps := [Read(tab, false), LookupFinds(tab, sid), EndIsLost(tab), Clear(tab, false)];
    var s1 := After(s, steps[0]);
    var s2 := After(s1, steps[1]);
    var s3 := After(s2, steps[2]);
    var s4 := After(s3, steps[3]);
    assert IsActive(s4.sessions, sid, c);
    hide IsEnabled, After, IsActive;
    assert IsRun([s, s1, s2, s3, s4], steps);
  }

  lemma EndSpares(sessions: Sessions, sid: SessionId, version: nat, other: SessionId, d: Correlation)
    requires IsActive(sessions, other, d) && sid in sessions && sessions[sid].correlation != d
    ensures HasActive(End(sessions, sid, version), d)
  {
    assert IsActive(End(sessions, sid, version), other, d);
  }

  /** A check-out up to the end of the session it found. */
  lemma EndedOnTheWay(s: State, tab: Tab, sid: SessionId, c: Correlation) returns (s1: State, s2: State, s3: State)
    requires s.stored == Some(c) && IsActive(s.sessions, sid, c) && At(s, tab).Idle?
    ensures IsEnabled(s, Read(tab, false)) && s1 == After(s, Read(tab, false))
    ensures IsEnabled(s1, LookupFinds(tab, sid)) && s2 == After(s1, LookupFinds(tab, sid))
    ensures IsEnabled(s2, EndArrives(tab)) && s3 == After(s2, EndArrives(tab))
    ensures At(s3, tab).Clearing? && s3.sessions == End(s.sessions, sid, s.sessions[sid].version)
  {
    hide End;
    s1 := After(s, Read(tab, false));
    assert At(s1, tab) == Looking(c) && s1.sessions == s.sessions;
    s2 := After(s1, LookupFinds(tab, sid));
    assert At(s2, tab) == Ending(c, sid, s.sessions[sid].version) && s2.sessions == s.sessions;
    s3 := After(s2, EndArrives(tab));
  }

  lemma RelayThenClear(s: State, tab: Tab, d: Correlation)
    requires At(s, tab).Clearing?
    ensures IsEnabled(s, Relay(d)) && IsEnabled(After(s, Relay(d)), Clear(tab, false))
    ensures After(s, Relay(d)).stored == Some(d) && After(s, Relay(d)).sessions == s.sessions
    ensures var last := After(After(s, Relay(d)), Clear(tab, false)); last.stored == None && last.sessions == s.sessions
  {
  }

  /** A link opened in another tab meanwhile: its ID is dropped unlooked-at, and its session stays active. */
  lemma RelayedIdIsDropped(s: State, tab: Tab, sid: SessionId, c: Correlation, d: Correlation)
    requires s.stored == Some(c) && IsActive(s.sessions, sid, c) && At(s, tab).Idle?
    requires c != d && HasActive(s.sessions, d)
    ensures var steps := [Read(tab, false), LookupFinds(tab, sid), EndArrives(tab), Relay(d), Clear(tab, false)];
            exists states: seq<State> :: IsRun(states, steps) && states[0] == s && states[4].stored == Some(d)
                             && states[5].stored == None && HasActive(states[5].sessions, d)
  {
    var steps := [Read(tab, false), LookupFinds(tab, sid), EndArrives(tab), Relay(d), Clear(tab, false)];
    var s1, s2, s3 := EndedOnTheWay(s, tab, sid, c);
    var s4 := After(s3, steps[3]);
    RelayThenClear(s3, tab, d);
    var s5 := After(s4, steps[4]);
    var other :| other in s.sessions && IsActive(s.sessions, other, d);
    hide IsEnabled, After, End;
    EndSpares(s.sessions, sid, s.sessions[sid].version, other, d);
    hide IsActive;
    assert IsRun([s, s1, s2, s3, s4, s5], steps);
  }

  /**
   * A link opened between an indicator's lookup of an ended session and its clean-up: the new ID is
   * dropped, and its session stays active.
   */
  lemma ReconcileDropsAnOpenedLink(s: State, tab: Tab, c: Correlation, d: Correlation)
    requires s.stored == Some(c) && c in s.mentioned && !HasActive(s.sessions, c) && HasActive(s.sessions, d)
    ensures var steps := [Poll(tab), NotFound(c), Relay(d), Reconcile(tab)];
            exists states: seq<State> :: IsRun(states, steps) && states[0] == s && states[3].stored == Some(d)
                             && states[4].stored == None && HasActive(states[4].sessions, d)
  {
    var steps := [Poll(tab), NotFound(c), Relay(d), Reconcile(tab)];
    var s1 := After(s, steps[0]);
    var s2 := After(s1, steps[1]);
    var s3 := After(s2, steps[2]);
    var s4 := After(s3, steps[3]);
    hide IsEnabled, After, HasActive;
    assert IsRun([s, s1, s2, s3, s4], steps);
  }

  // ----- the link from the dashboard -----

  const CORRELATION_ID_QUERY_PARAM := "coverageCorrelationId"

  datatype Url = Url(path: string, query: seq<(string, string)>, hash: string)

  /** The parameter's first value stands at `k`. */
  predicate IsFirst(query: seq<(string, string)>, k: int, name: string, value: string) {
    0 <= k < |query| && query[k] == (name, value) && forall j :: 0 <= j < k ==> query[j].0 != name
  }

  /** `params.get(name)` */
  function Get(query: seq<(string, string)>, name: string): (v: Option<string>)
    ensures v.None? <==> forall k :: 0 <= k < |query| ==> query[k].0 != name
    ensures v.Some? ==> exists k :: IsFirst(query, k, name, v.value)
  {
    if query == [] then None
    else if query[0].0 == name then
      assert IsFirst(query, 0, name, query[0].1);
      Some(query[0].1)
    else
      var v := Get(query[1..], name);
      assert v.Some? ==> exists k :: IsFirst(query, k, name, v.value) by {
        if v.Some? {
          var k :| IsFirst(query[1..], k, name, v.value);
          assert IsFirst(query, k + 1, name, v.value);
        }
      }
      v
  }

  /** `params.delete(name)` */
  function Without(query: seq<(string, string)>, name: string): (rest: seq<(string, string)>)
    ensures forall k :: 0 <= k < |rest| ==> rest[k].0 != name && rest[k] in query
    ensures forall k :: 0 <= k < |query| && query[k].0 != name ==> query[k] in rest
  {
    if query == [] then []
    else (if query[0].0 == name then [] else [query[0]]) + Without(query[1..], name)
  }

  lemma WithoutHead(query: seq<(string, string)>, name: string)
    requires query != []
    ensures Without(query, name) == Without(query[..1], name) + Without(query[1..], name)
  {
    assert query[..1][1..] == [];
  }

  lemma Regroup(a: seq<(string, string)>, b: seq<(string, string)>, c: seq<(string, string)>)
    ensures (a + b) + c == a + (b + c)
  {}

  lemma WithoutHeads(a: seq<(string, string)>, b: seq<(string, string)>, name: string)
    requires a != [] && Without(a[1..] + b, name) == Without(a[1..], name) + Without(b, name)
    ensures Without(a + b, name) == Without(a, name) + Without(b, name)
  {
    hide *;
    WithoutHead(a, name);
    WithoutHead(a + b, name);
    assert (a + b)[..1] == a[..1];
    assert (a + b)[1..] == a[1..] + b;
    Regroup(Without(a[..1], name), Without(a[1..], name), Without(b, name));
  }

  /** The parameters left keep their order. */
  lemma {:induction false} WithoutKeepsOrder(a: seq<(string, string)>, b: seq<(string, string)>, name: string)
    ensures Without(a + b, name) == Without(a, name) + Without(b, name)
  {
    if a == [] {
      assert a + b == b;
    } else {
      WithoutKeepsOrder(a[1..], b, name);
      WithoutHeads(a, b, name);
    }
  }

  class Browser {
    var stored: Option<string>
    var url: Url

    constructor (stored: Option<string>, url: Url)
      ensures this.stored == stored && this.url == url
    {
      this.stored, this.url := stored, url;
    }

    /**
     * `relayCoverageCorrelationIdFromUrl`: persists first and only then strips the parameter, so an
     * ID is never lost from both.
     */
    method Relay(setItemThrows: bool)
      modifies this
      ensures var id := Get(old(url).query, "coverageCorrelationId");
              if id.None? || id.value == "" || setItemThrows then stored == old(stored) && url == old(url)
              else && stored == id && url.path == old(url).path && url.hash == old(url).hash
                   && url.query == Without(old(url).query, "coverageCorrelationId")
                   && Get(url.query, "coverageCorrelationId") == None
    {
      var id := Get(url.query, CORRELATION_ID_QUERY_PARAM);
      if id.None? || id.value == "" { return; }
      if setItemThrows { return; }
      stored := id;
      url := url.(query := Without(url.query, CORRELATION_ID_QUERY_PARAM));
    }
  }
}
