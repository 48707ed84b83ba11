/**
 * The enrolment session runtime: a table of sessions, each driven by an external process.
 *
 * What the process, the clock and the files say is a parameter of each call and may be
 * anything at all.  The invariant therefore holds whatever the environment does, and after
 * every error return.
 */
module EnrollmentRuntime {
  import opened RustInts
  import opened Wrappers
  import opened Decimals
  import opened SessionIds

  datatype SessionState =
    | Starting
    | Running
    | WaitingForFace
    | WaitingForPose
    | Capturing
    | Finishing
    | Completed
    | Failed
    | Cancelled
  {
    predicate IsRunning() {
      this in {Starting, Running, WaitingForFace, WaitingForPose, Capturing, Finishing}
    }
  }

  datatype ErrorCode =
    | FaceEnrollmentAlreadyRunning
    | FaceEnrollmentSessionNotFound
    | FaceEnrollmentFailed
    | FaceEnrollmentCancelled
    | FaceEnrollmentUnavailable
    | CameraUnavailable
    | FaceModelUnavailable
    | PermissionDenied

  datatype ControlBackendError = ControlBackendError(code: ErrorCode, message: string)

  datatype StartPayload = StartPayload(userId: string, cameraId: string, allowPartialEnrollment: bool)

  /** A handle of a spawned process. */
  type Process = nat

  datatype FrameResult = FaceAccepted | NoFaceDetected | MultipleFacesDetected | PoseNotReady | QualityRejected | ModelUnavailable

  datatype Progress = Progress(
    currentStep: Option<string>,
    currentInstructionCode: Option<string>,
    acceptedSampleCount: u32,
    requiredSampleCount: Option<u32>,
    lastFrameResult: Option<FrameResult>)

  datatype RuntimeStatus = RuntimeStatus(sessionState: SessionState, progress: Progress)

  datatype TemplateSummary = TemplateSummary(selectedTemplateCount: u32, rejectedSampleCount: u32)

  datatype Exit = Exit(exitSuccess: bool, exitCode: Option<int>)

  /** What a refresh may find: status file, clock, process and template file. */
  datatype Observed = Observed(
    statusFile: Option<RuntimeStatus>,
    elapsedMs: Option<nat>,
    cancel: Result<(), ControlBackendError>,
    tryWait: Result<Option<Exit>, ControlBackendError>,
    summary: Result<TemplateSummary, ControlBackendError>)

  const STARTUP_TIMEOUT_SECONDS: nat := 12

  // ----- sessions as values -----

  datatype SessionView = SessionView(
    id: string,
    payload: StartPayload,
    outputDir: Path,
    state: SessionState,
    process: Option<Process>,
    progress: Progress,
    templateSummary: Option<TemplateSummary>,
    failureMessage: Option<string>)
  {
    /** Process, summary and failure message are there exactly when the state says so. */
    predicate Consistent() {
      && (process.Some? <==> state.IsRunning())
      && (templateSummary.Some? <==> state == Completed)
      && (failureMessage.Some? <==> state == Failed)
    }
  }

  const NO_PROGRESS: Progress := Progress(None, None, 0, None, None)

  function NewSession(id: string, payload: StartPayload, outputDir: Path, process: Process): (v: SessionView)
    ensures v.Consistent()
  {
    SessionView(id, payload, outputDir, Running, Some(process), NO_PROGRESS, None, None)
  }

  /** What the status file may change: the progress, and a running state into another one. */
  function WithStatusFile(v: SessionView, file: Option<RuntimeStatus>): SessionView {
    match file
    case None => v
    case Some(status) =>
      v.(state := if status.sessionState.IsRunning() then status.sessionState else v.state,
         progress := status.progress)
  }

  predicate StartupTimedOut(o: Observed) {
    o.elapsedMs.Some? && o.elapsedMs.value > STARTUP_TIMEOUT_SECONDS * 1000
  }

  function StartupFailureMessage(): string {
    "camera startup did not produce a readable frame within " + Decimal(STARTUP_TIMEOUT_SECONDS) + " seconds"
  }

  function ExitFailureMessage(code: Option<int>): string {
    "face enrollment command failed with exit code "
    + match code
      case None => "unknown"
      case Some(n) => SignedDecimal(n)
  }

  /** The outcome of asking a session's process whether it is still there. */
  datatype Refreshed = Refreshed(view: SessionView, error: Option<ControlBackendError>)

  function RefreshedView(before: SessionView, o: Observed): Refreshed {
    if !before.state.IsRunning() then Refreshed(before, None)
    else
      var v := WithStatusFile(before, o.statusFile);
      if v.state == Starting && StartupTimedOut(o) then
        if v.process.Some? && o.cancel.Err? then Refreshed(v, Some(o.cancel.error))
        else Refreshed(v.(process := None, state := Failed, failureMessage := Some(StartupFailureMessage())), None)
      else if v.process.None? then Refreshed(v, None)
      else
        match o.tryWait
        case Err(error) => Refreshed(v, Some(error))
        case Ok(None) => Refreshed(v, None)
        case Ok(Some(exit)) =>
          if !exit.exitSuccess then
            Refreshed(v.(process := None, state := Failed, failureMessage := Some(ExitFailureMessage(exit.exitCode))), None)
          else
            match o.summary
            case Ok(summary) =>
              Refreshed(v.(process := None, state := Completed, templateSummary := Some(summary), failureMessage := None), None)
            case Err(error) =>
              Refreshed(v.(process := None, state := Failed, failureMessage := Some(error.message)), Some(error))
  }

  /** A session's only ways to change: a running one may go on or end, an ended one is frozen. */
  predicate Evolves(v: SessionView, v': SessionView) {
    && v'.id == v.id && v'.payload == v.payload && v'.outputDir == v.outputDir
    && v'.Consistent()
    && (if v.state.IsRunning() then v'.state.IsRunning() ==> v'.process == v.process else v' == v)
  }

  lemma RefreshEvolves(v: SessionView, o: Observed)
    requires v.Consistent()
    ensures Evolves(v, RefreshedView(v, o).view)
  {
  }

  /** A session after a request to cancel it, and the answer. */
  datatype Reported = Reported(view: SessionView, result: Result<SessionView, ControlBackendError>)

  function AfterCancel(v: SessionView, cancelProcess: Result<(), ControlBackendError>): Reported {
    var cancelled := v.(process := None, state := Cancelled, failureMessage := None);
    if !v.state.IsRunning() then Reported(v, Ok(v))
    else if cancelProcess.Err? then Reported(v, Err(cancelProcess.error))
    else Reported(cancelled, Ok(cancelled))
  }

  lemma CancelEvolves(v: SessionView, refreshed: SessionView, cancelProcess: Result<(), ControlBackendError>)
    requires Evolves(v, refreshed)
    ensures Evolves(v, AfterCancel(refreshed, cancelProcess).view)
  {
  }

  // ----- tables of sessions -----

  type Table = map<string, SessionView>

  /** What holds of every stored session. */
  predicate SessionOk(root: Path, id: string, v: SessionView) {
    && v.Consistent() && v.id == id && id != [] && IsClean(id)
    && v.outputDir == OutputDir(root, id)
  }

  /** The invariant of the runtime, on values: sound sessions, at most one of them running. */
  ghost predicate TableInvariant(root: Path, t: Table) {
    && (forall id :: id in t ==> SessionOk(root, id, t[id]))
    && (forall a, b :: RunsIn(t, a) && RunsIn(t, b) ==> a == b)
  }

  predicate RunsIn(t: Table, id: string) {
    id in t && t[id].state.IsRunning()
  }

  /** No session is lost and each evolves; a new one appears only when all others have ended. */
  ghost predicate Transition(t: Table, t': Table) {
    && t.Keys <= t'.Keys
    && (forall id :: id in t ==> Evolves(t[id], t'[id]))
    && (forall id :: id in t' && id !in t ==>
          forall other :: other in t' && other != id ==> other in t && !RunsIn(t', other))
  }

  // ----- what one call can do to the table -----

  ghost predicate IsRefreshOf(v: SessionView, v': SessionView) {
    exists o :: v' == RefreshedView(v, o).view
  }

  ghost predicate IsCancelOf(v: SessionView, v': SessionView) {
    exists o, c :: RefreshedView(v, o).error.None? && v' == AfterCancel(RefreshedView(v, o).view, c).view
  }

  /** Any call may refresh some of the sessions: none, one, or several up to an error. */
  ghost predicate RefreshStep(t: Table, t': Table) {
    && t'.Keys == t.Keys
    && forall id :: id in t ==> t'[id] == t[id] || IsRefreshOf(t[id], t'[id])
  }

  ghost predicate CancelStep(t: Table, t': Table) {
    exists id :: id in t && id in t' && IsCancelOf(t[id], t'[id]) && t' == t[id := t'[id]]
  }

  /** A start refreshes every session, and adds one under a new id only if none is running then. */
  ghost predicate StartStep(root: Path, t: Table, t': Table) {
    exists refreshed: Table, id, payload, process :: StartStepOf(root, t, t', refreshed, id, payload, process)
  }

  ghost predicate StartStepOf(root: Path, t: Table, t': Table, refreshed: Table,
                              id: string, payload: StartPayload, process: Process)
  {
    && refreshed.Keys == t.Keys && (forall other :: other in t ==> IsRefreshOf(t[other], refreshed[other]))
    && (forall other :: !RunsIn(refreshed, other))
    && id !in t && IsClean(id) && id != []
    && t' == refreshed[id := NewSession(id, payload, OutputDir(root, id), process)]
  }

  ghost predicate Next(root: Path, t: Table, t': Table) {
    RefreshStep(t, t') || CancelStep(t, t') || StartStep(root, t, t')
  }

  lemma StepKeepsInvariant(root: Path, t: Table, t': Table)
    requires TableInvariant(root, t) && Next(root, t, t')
    ensures TableInvariant(root, t') && Transition(t, t')
  {
    if RefreshStep(t, t') {
      RefreshStepKeepsInvariant(root, t, t');
    } else if CancelStep(t, t') {
      var id :| id in t && id in t' && IsCancelOf(t[id], t'[id]) && t' == t[id := t'[id]];
      var o, c :| RefreshedView(t[id], o).error.None? && t'[id] == AfterCancel(RefreshedView(t[id], o).view, c).view;
      assert SessionOk(root, id, t[id]);
      RefreshEvolves(t[id], o);
      CancelEvolves(t[id], RefreshedView(t[id], o).view, c);
      ChangingOneIsATransition(root, t, id, t'[id]);
    } else {
      var refreshed: Table, id, payload, process :| StartStepOf(root, t, t', refreshed, id, payload, process);
      RefreshStepKeepsInvariant(root, t, refreshed);
      AddingOneIsATransition(root, t, refreshed, id, NewSession(id, payload, OutputDir(root, id), process));
    }
  }

  lemma RefreshStepKeepsInvariant(root: Path, t: Table, t': Table)
    requires TableInvariant(root, t) && RefreshStep(t, t')
    ensures TableInvariant(root, t') && Transition(t, t')
  {
    forall id | id in t ensures Evolves(t[id], t'[id]) {
      assert SessionOk(root, id, t[id]);
      if t'[id] != t[id] {
        var o :| t'[id] == RefreshedView(t[id], o).view;
        RefreshEvolves(t[id], o);
      }
    }
    EvolvingIsATransition(root, t, t');
  }

  /** A history of the table: empty at first, and then one call after the other. */
  ghost predicate IsRun(root: Path, tables: seq<Table>) {
    && tables != [] && tables[0] == map[]
    && forall i {:trigger tables[i]} :: 0 < i < |tables| ==> Next(root, tables[i - 1], tables[i])
  }

  lemma {:induction false} RunKeepsInvariant(root: Path, tables: seq<Table>, i: nat)
    requires IsRun(root, tables) && i < |tables|
    ensures TableInvariant(root, tables[i])
  {
    if i > 0 {
      RunKeepsInvariant(root, tables, i - 1);
      StepKeepsInvariant(root, tables[i - 1], tables[i]);
    }
  }

  /** Over any history no session is lost, and a session that has ended never changes again. */
  lemma {:induction false} EndedSessionsAreFrozen(root: Path, tables: seq<Table>, i: nat, j: nat, id: string)
    requires IsRun(root, tables) && i <= j < |tables| && id in tables[i]
    ensures id in tables[j]
    ensures !tables[i][id].state.IsRunning() ==> tables[j][id] == tables[i][id]
    ensures tables[j][id].state.IsRunning() ==> tables[j][id].process == tables[i][id].process
  {
    hide Next, TableInvariant, SessionOk, Evolves;
    if i < j {
      EndedSessionsAreFrozen(root, tables, i, j - 1, id);
      RunKeepsInvariant(root, tables, j - 1);
      StepKeepsInvariant(root, tables[j - 1], tables[j]);
      WhatEvolvingMeans(tables[j - 1][id], tables[j][id]);
    }
  }

  lemma WhatEvolvingMeans(v: SessionView, v': SessionView)
    requires Evolves(v, v')
    ensures !v.state.IsRunning() ==> v' == v
    ensures v.state.IsRunning() && v'.state.IsRunning() ==> v'.process == v.process
  {
  }

  /** Over any history at most one session runs at a time, and sessions have their own directories. */
  lemma SessionsAreSeparate(root: Path, tables: seq<Table>, i: nat, a: string, b: string)
    requires IsRun(root, tables) && i < |tables| && a in tables[i] && b in tables[i] && a != b
    ensures !(tables[i][a].state.IsRunning() && tables[i][b].state.IsRunning())
    ensures !(tables[i][a].process.Some? && tables[i][b].process.Some?)
    ensures tables[i][a].outputDir != tables[i][b].outputDir
  {
    RunKeepsInvariant(root, tables, i);
    var t := tables[i];
    assert SessionOk(root, a, t[a]) && SessionOk(root, b, t[b]);
    assert !(RunsIn(t, a) && RunsIn(t, b));
    OutputDirsDiffer(root, a, b);
  }

  // ----- how sessions end -----

  /** The state that the status file tells, unless it tells an end, which is for the process alone to tell. */
  function StateOnFile(v: SessionView, o: Observed): SessionState {
    if o.statusFile.Some? && o.statusFile.value.sessionState !in {Completed, Failed, Cancelled}
    then o.statusFile.value.sessionState else v.state
  }

  /** With the status file taken into account, the session is still starting, and has been for too long. */
  predicate StartsTooLong(v: SessionView, o: Observed) {
    StateOnFile(v, o) == Starting && o.elapsedMs.Some? && o.elapsedMs.value > 12000
  }

  /** The process has exited successfully and left a summary of its templates. */
  predicate Succeeded(o: Observed, summary: TemplateSummary) {
    o.tryWait.Ok? && o.tryWait.value.Some? && o.tryWait.value.value.exitSuccess && o.summary == Ok(summary)
  }

  /** What went wrong, if anything did, in the words of the failure message. */
  predicate WentWrong(v: SessionView, o: Observed, message: string) {
    if StartsTooLong(v, o) then
      o.cancel.Ok? && message == "camera startup did not produce a readable frame within 12 seconds"
    else
      && o.tryWait.Ok? && o.tryWait.value.Some?
      && var exit := o.tryWait.value.value;
         if exit.exitSuccess then o.summary.Err? && message == o.summary.error.message
         else message == "face enrollment command failed with exit code "
                         + if exit.exitCode.Some? then SignedDecimal(exit.exitCode.value) else "unknown"
  }

  /**
   * What becomes of a running session when it is refreshed: it is completed, with the summary
   * of its process, exactly when that has succeeded; failed, with a message that says why,
   * exactly when something went wrong; and otherwise it goes on with the process it has.
   */
  lemma HowARefreshEnds(v: SessionView, o: Observed)
    requires v.Consistent() && v.state !in {Completed, Failed, Cancelled}
    ensures var after := RefreshedView(v, o).view;
            && (after.state == Completed <==> !StartsTooLong(v, o) && exists summary :: Succeeded(o, summary))
            && (after.state == Completed ==> after.templateSummary.Some? && Succeeded(o, after.templateSummary.value))
            && (after.state == Failed <==> exists message :: WentWrong(v, o, message))
            && (after.state == Failed ==> after.failureMessage.Some? && WentWrong(v, o, after.failureMessage.value))
            && after.state != Cancelled
            && (after.state !in {Completed, Failed} ==> after.process == v.process && after.state == StateOnFile(v, o))
            && after.progress == if o.statusFile.Some? then o.statusFile.value.progress else v.progress
  {
    TwelveSeconds();
    if !StartsTooLong(v, o) && o.tryWait.Ok? && o.tryWait.value.Some? && o.tryWait.value.value.exitSuccess && o.summary.Ok? {
      assert Succeeded(o, o.summary.value);
    }
    var after := RefreshedView(v, o).view;
    if after.state == Failed {
      assert WentWrong(v, o, after.failureMessage.value);
    }
  }

  lemma TwelveSeconds()
    ensures StartupFailureMessage() == "camera startup did not produce a readable frame within 12 seconds"
  {
    assert Decimal(12) == Decimal(1) + ['2'];
    assert Decimal(1) == ['1'];
  }

  /** Which error a refresh of a running session reports: an operation that failed, or an unreadable summary. */
  lemma WhichErrorARefreshReports(v: SessionView, o: Observed)
    requires v.Consistent() && v.state !in {Completed, Failed, Cancelled}
    ensures RefreshedView(v, o).error ==
            if StartsTooLong(v, o) then (if o.cancel.Err? then Some(o.cancel.error) else None)
            else if o.tryWait.Err? then Some(o.tryWait.error)
            else if o.tryWait.value.Some? && o.tryWait.value.value.exitSuccess && o.summary.Err? then Some(o.summary.error)
            else None
  {
  }

  /** What cancelling does: a running session whose process can be cancelled is cancelled, any other one stays. */
  lemma HowACancellationEnds(v: SessionView, cancelProcess: Result<(), ControlBackendError>)
    requires v.Consistent()
    ensures var done := AfterCancel(v, cancelProcess);
            if v.state !in {Completed, Failed, Cancelled} && cancelProcess.Ok?
            then done.view.state == Cancelled && done.view.process.None? && done.result == Ok(done.view)
            else done.view == v && done.result == if v.state in {Completed, Failed, Cancelled} then Ok(v) else Err(cancelProcess.error)
  {
  }

  /** Why a session that was running has ended in this way. */
  ghost predicate EndIsJustified(v: SessionView, v': SessionView) {
    match v'.state
    case Completed =>
      && v'.templateSummary.Some?
      && exists o :: Succeeded(o, v'.templateSummary.value) && !StartsTooLong(v, o) && v' == RefreshedView(v, o).view
    case Failed =>
      && v'.failureMessage.Some?
      && exists o :: WentWrong(v, o, v'.failureMessage.value) && v' == RefreshedView(v, o).view
    case Cancelled => exists o, c: Result<(), ControlBackendError> ::
        c.Ok? && RefreshedView(v, o).view.state.IsRunning() && v' == AfterCancel(RefreshedView(v, o).view, c).view
    case _ => true
  }

  lemma RefreshJustifiesTheEnd(v: SessionView, v': SessionView)
    requires v.Consistent() && v.state.IsRunning() && v' != v && IsRefreshOf(v, v')
    ensures EndIsJustified(v, v')
  {
    var o :| v' == RefreshedView(v, o).view;
    hide RefreshedView, WentWrong, Succeeded, StartsTooLong, IsRefreshOf;
    HowARefreshEnds(v, o);
    if v'.state == Completed {
      assert Succeeded(o, v'.templateSummary.value) && !StartsTooLong(v, o);
    } else if v'.state == Failed {
      assert WentWrong(v, o, v'.failureMessage.value);
    }
  }

  lemma CancelJustifiesTheEnd(v: SessionView, v': SessionView)
    requires v.Consistent() && v.state.IsRunning() && IsCancelOf(v, v')
    ensures EndIsJustified(v, v')
  {
    var o, c :| RefreshedView(v, o).error.None? && v' == AfterCancel(RefreshedView(v, o).view, c).view;
    RefreshEvolves(v, o);
    hide RefreshedView, WentWrong, Succeeded, StartsTooLong;
    HowACancellationEnds(RefreshedView(v, o).view, c);
    if v' == RefreshedView(v, o).view {
      assert IsRefreshOf(v, v');
      if v' != v {
        RefreshJustifiesTheEnd(v, v');
      }
    } else {
      assert v'.state == Cancelled && c.Ok?;
    }
  }

  /** One call ends a running session only for a reason. */
  lemma StepJustifiesTheEnd(root: Path, t: Table, t': Table, id: string)
    requires TableInvariant(root, t) && Next(root, t, t') && id in t && id in t'
    requires t[id].state.IsRunning() && !t'[id].state.IsRunning()
    ensures EndIsJustified(t[id], t'[id])
  {
    hide EndIsJustified, RefreshedView, AfterCancel;
    assert SessionOk(root, id, t[id]);
    if RefreshStep(t, t') {
      RefreshJustifiesTheEnd(t[id], t'[id]);
    } else if CancelStep(t, t') {
      var other :| other in t && other in t' && IsCancelOf(t[other], t'[other]) && t' == t[other := t'[other]];
      CancelJustifiesTheEnd(t[other], t'[other]);
    } else {
      var refreshed: Table, added, payload, process :| StartStepOf(root, t, t', refreshed, added, payload, process);
      assert IsRefreshOf(t[id], refreshed[id]);
      RefreshJustifiesTheEnd(t[id], t'[id]);
    }
  }

  /**
   * Every session found ended has an end: a call before which it was running and after which
   * it is as it is now, for a reason.  So a completed one has a process that was observed to
   * have exited successfully, with just the summary that the session has.
   */
  lemma {:induction false} EndedSessionsHaveAReason(root: Path, tables: seq<Table>, j: nat, id: string) returns (k: nat)
    requires IsRun(root, tables) && j < |tables| && id in tables[j] && !tables[j][id].state.IsRunning()
    ensures k < j && id in tables[k] && tables[k][id].state.IsRunning()
    ensures tables[k + 1].Keys >= {id} && tables[k + 1][id] == tables[j][id]
    ensures EndIsJustified(tables[k][id], tables[j][id])
  {
    hide TableInvariant, EndIsJustified, StartStep, CancelStep, RefreshStep, Evolves;
    RunKeepsInvariant(root, tables, j - 1);
    StepKeepsInvariant(root, tables[j - 1], tables[j]);
    if id !in tables[j - 1] {
      NewSessionsRun(root, tables[j - 1], tables[j], id);
    } else if tables[j - 1][id].state.IsRunning() {
      k := j - 1;
      StepJustifiesTheEnd(root, tables[j - 1], tables[j], id);
    } else {
      k := EndedSessionsHaveAReason(root, tables, j - 1, id);
      WhatEvolvingMeans(tables[j - 1][id], tables[j][id]);
    }
  }

  lemma NewSessionsRun(root: Path, t: Table, t': Table, id: string)
    requires Next(root, t, t') && id !in t && id in t'
    ensures t'[id].state.IsRunning()
  {
    hide RefreshedView;
    if !RefreshStep(t, t') && !CancelStep(t, t') {
      var refreshed: Table, added, payload, process :| StartStepOf(root, t, t', refreshed, added, payload, process);
    }
  }

  function RefreshedTable(t: Table, observed: string -> Observed): Table {
    map id | id in t :: RefreshedView(t[id], observed(id)).view
  }

  lemma EvolvingIsATransition(root: Path, t: Table, t': Table)
    requires TableInvariant(root, t) && t'.Keys == t.Keys
    requires forall id :: id in t ==> Evolves(t[id], t'[id])
    ensures TableInvariant(root, t') && Transition(t, t')
  {
    forall a, b | RunsIn(t', a) && RunsIn(t', b) ensures a == b {
      assert Evolves(t[a], t'[a]) && Evolves(t[b], t'[b]);
      assert RunsIn(t, a) && RunsIn(t, b);
    }
    forall id | id in t' ensures SessionOk(root, id, t'[id]) {
      assert SessionOk(root, id, t[id]) && Evolves(t[id], t'[id]);
    }
  }

  /** Some sessions refreshed, the others not yet looked at. */
  predicate PartlyRefreshed(t: Table, t': Table, observed: string -> Observed) {
    && t'.Keys == t.Keys
    && forall id :: id in t ==> t'[id] == t[id] || t'[id] == RefreshedView(t[id], observed(id)).view
  }

  /** All sessions refreshed without an error, but for the untouched `remaining` ones. */
  ghost predicate RefreshedExcept(t: Table, t': Table, observed: string -> Observed, remaining: set<string>) {
    && t'.Keys == t.Keys
    && forall id :: id in t ==>
                      if id in remaining then t'[id] == t[id]
                      else Refreshed(t'[id], None) == RefreshedView(t[id], observed(id))
  }

  lemma OneMoreRefreshed(root: Path, t: Table, before: Table, after: Table, observed: string -> Observed,
                         remaining: set<string>, id: string, error: Option<ControlBackendError>)
    requires TableInvariant(root, t)
    requires RefreshedExcept(t, before, observed, remaining) && id in remaining && id in t
    requires id in after && after == before[id := after[id]]
    requires Refreshed(after[id], error) == RefreshedView(before[id], observed(id))
    ensures TableInvariant(root, after) && PartlyRefreshed(t, after, observed)
    ensures error.None? ==> RefreshedExcept(t, after, observed, remaining - {id})
    ensures (exists other :: other !in remaining - {id} && RunsIn(after, other)) <==>
            (RunsIn(after, id) || exists other :: other !in remaining && RunsIn(before, other))
  {
    hide RefreshedView, TableInvariant, Next, Transition;
    forall other | other in t ensures after[other] == t[other] || after[other] == RefreshedView(t[other], observed(other)).view {
      if other != id && other !in remaining {
        assert Refreshed(before[other], None) == RefreshedView(t[other], observed(other));
      }
    }
    PartRefreshIsATransition(root, t, after, observed);
    if other :| other !in remaining && RunsIn(before, other) {
      assert other !in remaining - {id} && RunsIn(after, other);
    }
    if other :| other !in remaining - {id} && RunsIn(after, other) {
      assert other == id || (other !in remaining && RunsIn(before, other));
    }
  }

  lemma AllRefreshed(t: Table, t': Table, observed: string -> Observed)
    requires RefreshedExcept(t, t', observed, {})
    ensures t' == RefreshedTable(t, observed) && PartlyRefreshed(t, t', observed)
    ensures forall id :: id in t ==> RefreshedView(t[id], observed(id)).error == None
  {
    forall id | id in t ensures t'[id] == RefreshedView(t[id], observed(id)).view {
      assert Refreshed(t'[id], None) == RefreshedView(t[id], observed(id));
    }
  }

  lemma PartRefreshIsATransition(root: Path, t: Table, t': Table, observed: string -> Observed)
    requires TableInvariant(root, t) && PartlyRefreshed(t, t', observed)
    ensures TableInvariant(root, t') && Transition(t, t') && Next(root, t, t')
  {
    forall id | id in t && t'[id] != t[id] ensures IsRefreshOf(t[id], t'[id]) {
      assert t'[id] == RefreshedView(t[id], observed(id)).view;
    }
    assert RefreshStep(t, t');
    RefreshStepKeepsInvariant(root, t, t');
  }

  lemma ChangingOneIsATransition(root: Path, t: Table, id: string, v: SessionView)
    requires TableInvariant(root, t) && id in t && Evolves(t[id], v)
    ensures TableInvariant(root, t[id := v]) && Transition(t, t[id := v])
  {
    forall other | other in t ensures Evolves(t[other], t[id := v][other]) {
      assert SessionOk(root, other, t[other]);
    }
    EvolvingIsATransition(root, t, t[id := v]);
  }

  lemma AddingOneIsATransition(root: Path, t: Table, refreshed: Table, id: string, v: SessionView)
    requires TableInvariant(root, refreshed) && Transition(t, refreshed) && refreshed.Keys == t.Keys
    requires forall other :: !RunsIn(refreshed, other)
    requires SessionOk(root, id, v)
    ensures TableInvariant(root, refreshed[id := v])
    ensures id !in t ==> Transition(t, refreshed[id := v])
  {
    var added := refreshed[id := v];
    forall other | other in added && other != id ensures !RunsIn(added, other) && SessionOk(root, other, added[other]) {
      assert !RunsIn(refreshed, other) && SessionOk(root, other, refreshed[other]);
    }
    if id !in t {
      forall other | other in t ensures Evolves(t[other], added[other]) {
        assert Evolves(t[other], refreshed[other]);
      }
    }
  }

  lemma RefreshingOneIsAStep(root: Path, t: Table, id: string, o: Observed)
    requires TableInvariant(root, t) && id in t
    ensures var t' := t[id := RefreshedView(t[id], o).view]; TableInvariant(root, t') && Next(root, t, t')
  {
    assert IsRefreshOf(t[id], RefreshedView(t[id], o).view);
    assert RefreshStep(t, t[id := RefreshedView(t[id], o).view]);
    RefreshStepKeepsInvariant(root, t, t[id := RefreshedView(t[id], o).view]);
  }

  lemma CancellingIsAStep(root: Path, t: Table, refreshed: Table, id: string, o: Observed, cancelProcess: Result<(), ControlBackendError>)
    requires TableInvariant(root, t) && id in t
    requires refreshed == t[id := RefreshedView(t[id], o).view] && RefreshedView(t[id], o).error.None?
    ensures var v := AfterCancel(refreshed[id], cancelProcess).view;
            && refreshed[id := v] == t[id := v]
            && TableInvariant(root, refreshed[id := v]) && Next(root, t, refreshed[id := v])
  {
    hide RefreshedView, AfterCancel, TableInvariant;
    var v := AfterCancel(refreshed[id], cancelProcess).view;
    assert refreshed[id := v] == t[id := v];
    assert IsCancelOf(t[id], v);
    assert CancelStep(t, t[id := v]);
    StepKeepsInvariant(root, t, t[id := v]);
  }

  lemma AddingOneIsAStep(root: Path, t: Table, observed: string -> Observed, id: string, payload: StartPayload, process: Process)
    requires id !in t && IsClean(id) && id != [] && forall other :: !RunsIn(RefreshedTable(t, observed), other)
    ensures Next(root, t, RefreshedTable(t, observed)[id := NewSession(id, payload, OutputDir(root, id), process)])
  {
    var refreshed := RefreshedTable(t, observed);
    forall other | other in t ensures IsRefreshOf(t[other], refreshed[other]) {
      assert refreshed[other] == RefreshedView(t[other], observed(other)).view;
    }
    assert StartStepOf(root, t, refreshed[id := NewSession(id, payload, OutputDir(root, id), process)], refreshed, id, payload, process);
  }

  /** `after` is `before` with one new running session in it. */
  predicate AddedOne(root: Path, before: Table, after: Table, payload: StartPayload, process: Process, v: SessionView) {
    && v == NewSession(v.id, payload, OutputDir(root, v.id), process)
    && after == before[v.id := v]
  }

  /** After a refresh of every session, none reported an error and none is running. */
  predicate QuietAfterRefresh(t: Table, observed: string -> Observed) {
    forall id :: id in t ==>
                   && RefreshedView(t[id], observed(id)).error == None
                   && !RefreshedView(t[id], observed(id)).view.state.IsRunning()
  }

  /** Why a start is refused: a refresh failed, a session still runs, or directory or process cannot be had. */
  ghost predicate IsRefusal(t: Table, observed: string -> Observed, prepareOutputDir: Result<(), ControlBackendError>,
                            spawn: Result<Process, ControlBackendError>, error: ControlBackendError)
  {
    if QuietAfterRefresh(t, observed) then
      if prepareOutputDir.Err? then error == prepareOutputDir.error else spawn.Err? && error == spawn.error
    else
      || (exists id :: id in t && RefreshedView(t[id], observed(id)).error == Some(error))
      || (error == ALREADY_RUNNING && forall id :: id in t ==> RefreshedView(t[id], observed(id)).error == None)
  }

  lemma RefreshVerdict(t: Table, t': Table, observed: string -> Observed,
                       verdict: Result<bool, ControlBackendError>, failed: string)
    requires t'.Keys == t.Keys
    requires verdict.Err? ==> failed in t && RefreshedView(t[failed], observed(failed)).error == Some(verdict.error)
    requires verdict.Ok? ==>
               && t' == RefreshedTable(t, observed)
               && (forall id :: id in t ==> RefreshedView(t[id], observed(id)).error == None)
               && (verdict.value <==> exists id :: RunsIn(t', id))
    ensures QuietAfterRefresh(t, observed) <==> verdict == Ok(false)
    ensures verdict == Ok(false) ==> forall id :: !RunsIn(t', id)
  {
    if verdict == Ok(true) {
      var id :| RunsIn(t', id);
      assert RefreshedView(t[id], observed(id)).view.state.IsRunning();
    }
    if verdict == Ok(false) {
      forall id | id in t ensures !RefreshedView(t[id], observed(id)).view.state.IsRunning() {
        assert !RunsIn(t', id);
      }
    }
  }

  // ----- session objects -----

  class CommandFaceEnrollmentSession {
    const enrollmentSessionId: string
    const startPayload: StartPayload
    const outputDir: Path
    var sessionState: SessionState
    var process: Option<Process>
    var progress: Progress
    var templateSummary: Option<TemplateSummary>
    var failureMessage: Option<string>

    function View(): SessionView
      reads this
    {
      SessionView(enrollmentSessionId, startPayload, outputDir, sessionState, process, progress, templateSummary, failureMessage)
    }

    constructor Running(id: string, payload: StartPayload, outputDir: Path, process: Process)
      ensures View() == NewSession(id, payload, outputDir, process)
    {
      enrollmentSessionId, startPayload, this.outputDir := id, payload, outputDir;
      sessionState := SessionState.Running;
      this.process := Some(process);
      progress := NO_PROGRESS;
      templateSummary, failureMessage := None, None;
    }

    method ApplyRuntimeStatus(file: Option<RuntimeStatus>)
      modifies this
      ensures View() == WithStatusFile(old(View()), file)
    {
      if file.None? {
        return;
      }
      if file.value.sessionState.IsRunning() {
        sessionState := file.value.sessionState;
      }
      progress := file.value.progress;
    }

    method Refresh(o: Observed) returns (error: Option<ControlBackendError>)
      modifies this
      ensures Refreshed(View(), error) == RefreshedView(old(View()), o)
    {
      if !sessionState.IsRunning() {
        return None;
      }
      ApplyRuntimeStatus(o.statusFile);
      if sessionState == Starting && StartupTimedOut(o) {
        if process.Some? && o.cancel.Err? {
          return Some(o.cancel.error);
        }
        process := None;
        sessionState := Failed;
        failureMessage := Some(StartupFailureMessage());
        return None;
      }
      if process.None? {
        return None;
      }
      if o.tryWait.Err? {
        return Some(o.tryWait.error);
      }
      if o.tryWait.value.None? {
        return None;
      }
      var exit := o.tryWait.value.value;
      process := None;
      if exit.exitSuccess {
        sessionState := Finishing;
        match o.summary {
          case Ok(summary) =>
            templateSummary := Some(summary);
            sessionState := Completed;
            failureMessage := None;
          case Err(failure) =>
            sessionState := Failed;
            failureMessage := Some(failure.message);
            return Some(failure);
        }
      } else {
        sessionState := Failed;
        failureMessage := Some(ExitFailureMessage(exit.exitCode));
      }
      return None;
    }
  }

  // ----- the runtime -----

  datatype FinishOutcome = FinishOutcome(id: string, userId: string, templateSummary: TemplateSummary)

  const ALREADY_RUNNING: ControlBackendError :=
    ControlBackendError(FaceEnrollmentAlreadyRunning, "another face enrollment session is already running")

  const STILL_RUNNING: ControlBackendError :=
    ControlBackendError(FaceEnrollmentFailed, "face enrollment session is still running")

  const WAS_CANCELLED: ControlBackendError :=
    ControlBackendError(FaceEnrollmentCancelled, "face enrollment session was cancelled")

  function NotFound(id: string): ControlBackendError {
    ControlBackendError(FaceEnrollmentSessionNotFound, "face enrollment session " + id + " was not found")
  }

  function RequireSummary(summary: Option<TemplateSummary>): Result<TemplateSummary, ControlBackendError> {
    match summary
    case Some(s) => Ok(s)
    case None =>
      Err(ControlBackendError(FaceEnrollmentFailed, "completed face enrollment session is missing template summary"))
  }

  /** Hands over a completed session's templates; a missing summary is reported first. */
  function FinishCompleted(v: SessionView, applyTemplate: Result<(), ControlBackendError>)
    : Result<FinishOutcome, ControlBackendError>
  {
    match RequireSummary(v.templateSummary)
    case Err(error) => Err(error)
    case Ok(summary) =>
      match applyTemplate
      case Err(error) => Err(error)
      case Ok(_) => Ok(FinishOutcome(v.id, v.payload.userId, summary))
  }

  class CommandFaceEnrollmentRuntime {
    const root: Path
    var sessions: map<string, CommandFaceEnrollmentSession>

    ghost function CurrentTable(): Table
      reads this, sessions.Values
    {
      map id | id in sessions :: sessions[id].View()
    }

    ghost predicate Valid()
      reads this, sessions.Values
    {
      TableInvariant(root, CurrentTable())
    }

    constructor (root: Path)
      ensures Valid() && this.root == root && sessions == map[]
    {
      this.root := root;
      sessions := map[];
    }

    /**
     * Refreshes the sessions one after the other, in any order, and stops at the first
     * error; `failed` is the session that reported it.
     */
    method RefreshAll(observed: string -> Observed) returns (r: Result<bool, ControlBackendError>, ghost failed: string)
      requires Valid()
      modifies sessions.Values
      ensures Valid() && sessions == old(sessions)
      ensures PartlyRefreshed(old(CurrentTable()), CurrentTable(), observed)
      ensures r.Ok? ==>
                && CurrentTable() == RefreshedTable(old(CurrentTable()), observed)
                && (forall id :: id in sessions ==> RefreshedView(old(CurrentTable())[id], observed(id)).error == None)
                && (r.value <==> exists id :: RunsIn(CurrentTable(), id))
      ensures r.Err? ==>
                failed in sessions && RefreshedView(old(CurrentTable())[failed], observed(failed)).error == Some(r.error)
    {
      ghost var t := CurrentTable();
      var remaining := sessions.Keys;
      var hasRunning := false;
      failed := "";
      while remaining != {}
        invariant remaining <= sessions.Keys && sessions == old(sessions) && Valid()
        invariant RefreshedExcept(t, CurrentTable(), observed, remaining)
        invariant hasRunning <==> exists id :: id !in remaining && RunsIn(CurrentTable(), id)
        decreases remaining
      {
        var id :| id in remaining;
        ghost var before := CurrentTable();
        var error := UpdateOne(id, observed(id));
        OneMoreRefreshed(root, t, before, CurrentTable(), observed, remaining, id, error);
        if error.Some? {
          failed := id;
          r := Err(error.value);
          return;
        }
        remaining := remaining - {id};
        hasRunning := hasRunning || sessions[id].sessionState.IsRunning();
      }
      AllRefreshed(t, CurrentTable(), observed);
      r := Ok(hasRunning);
    }

    /**
     * Starts a session, unless one is still running after a refresh of all of them.  Every
     * error return leaves the same sessions in the table, at most refreshed; success adds
     * exactly one.
     */
    method Start(payload: StartPayload, observed: string -> Observed, unixMs: nat, laterUnixMs: nat,
                 prepareOutputDir: Result<(), ControlBackendError>, spawn: Result<Process, ControlBackendError>)
      returns (r: Result<SessionView, ControlBackendError>)
      requires Valid()
      modifies this, sessions.Values
      ensures Valid()
      ensures |old(sessions)| <= U32_MAX ==> Next(root, old(CurrentTable()), CurrentTable())
      ensures r.Err? ==> sessions == old(sessions) && PartlyRefreshed(old(CurrentTable()), CurrentTable(), observed)
      ensures r.Ok? ==> spawn.Ok?
                        && AddedOne(root, RefreshedTable(old(CurrentTable()), observed), CurrentTable(), payload, spawn.value, r.value)
                        && (|old(sessions)| <= U32_MAX ==> r.value.id !in old(sessions))
      ensures r.Ok? <==> QuietAfterRefresh(old(CurrentTable()), observed) && prepareOutputDir.Ok? && spawn.Ok?
      ensures r.Err? ==> IsRefusal(old(CurrentTable()), observed, prepareOutputDir, spawn, r.error)
    {
      ghost var t := CurrentTable();
      var hasRunning, failed := RefreshAll(observed);
      ghost var refreshed := CurrentTable();
      PartRefreshIsATransition(root, t, refreshed, observed);
      RefreshVerdict(t, refreshed, observed, hasRunning, failed);
      if hasRunning.Err? {
        return Err(hasRunning.error);
      }
      if hasRunning.value {
        return Err(ALREADY_RUNNING);
      }
      r := Launch(payload, unixMs, laterUnixMs, prepareOutputDir, spawn);
      if r.Ok? {
        AddingOneIsATransition(root, t, refreshed, r.value.id, r.value);
        if r.value.id !in t {
          AddingOneIsAStep(root, t, observed, r.value.id, payload, spawn.value);
        }
      }
    }

    /** The second half of a start, once nothing runs: a new id, a directory and a process. */
    method Launch(payload: StartPayload, unixMs: nat, laterUnixMs: nat,
                  prepareOutputDir: Result<(), ControlBackendError>, spawn: Result<Process, ControlBackendError>)
      returns (r: Result<SessionView, ControlBackendError>)
      modifies this
      ensures r.Ok? <==> prepareOutputDir.Ok? && spawn.Ok?
      ensures r.Err? ==> sessions == old(sessions) && CurrentTable() == old(CurrentTable())
      ensures r.Err? ==> r.error == if prepareOutputDir.Err? then prepareOutputDir.error else spawn.error
      ensures r.Ok? ==>
                && AddedOne(root, old(CurrentTable()), CurrentTable(), payload, spawn.value, r.value)
                && SessionOk(root, r.value.id, r.value)
                && (|old(sessions)| <= U32_MAX ==> r.value.id !in old(sessions))
    {
      KeysCount(CurrentTable(), sessions);
      var sessionId := NextFaceEnrollmentSessionId(sessions.Keys, unixMs, laterUnixMs);
      if prepareOutputDir.Err? {
        return Err(prepareOutputDir.error);
      }
      if spawn.Err? {
        return Err(spawn.error);
      }
      var view := Add(sessionId, payload, spawn.value);
      return Ok(view);
    }

    /** Puts a new running session into the table. */
    method Add(id: string, payload: StartPayload, process: Process) returns (view: SessionView)
      modifies this
      ensures view == NewSession(id, payload, OutputDir(root, id), process)
      ensures CurrentTable() == old(CurrentTable())[id := view]
    {
      var session := new CommandFaceEnrollmentSession.Running(id, payload, OutputDir(root, id), process);
      view := session.View();
      ghost var t := CurrentTable();
      sessions := sessions[id := session];
      assert CurrentTable() == t[id := view];
    }

    lemma KeysCount(t: Table, held: map<string, CommandFaceEnrollmentSession>)
      requires t.Keys == held.Keys
      ensures |t.Keys| == |held|
    {
    }

    /** Refreshes one session, if there is such a session. */
    method RefreshOne(id: string, o: Observed) returns (error: Option<ControlBackendError>)
      requires Valid()
      modifies sessions.Values
      ensures Valid() && sessions == old(sessions) && Next(root, old(CurrentTable()), CurrentTable())
      ensures id !in sessions ==> error == Some(NotFound(id)) && CurrentTable() == old(CurrentTable())
      ensures id in sessions ==>
                var after := RefreshedView(old(CurrentTable())[id], o);
                error == after.error && CurrentTable() == old(CurrentTable())[id := after.view]
    {
      ghost var t := CurrentTable();
      if id !in sessions {
        return Some(NotFound(id));
      }
      error := UpdateOne(id, o);
      RefreshingOneIsAStep(root, t, id, o);
    }

    method UpdateOne(id: string, o: Observed) returns (error: Option<ControlBackendError>)
      requires Valid() && id in sessions
      modifies sessions[id]
      ensures sessions == old(sessions)
      ensures Refreshed(sessions[id].View(), error) == RefreshedView(old(CurrentTable())[id], o)
      ensures CurrentTable() == old(CurrentTable())[id := sessions[id].View()]
    {
      hide RefreshedView;
      ghost var t := CurrentTable();
      error := sessions[id].Refresh(o);
      forall other | other in sessions && other != id ensures sessions[other].View() == t[other] {
        assert sessions[other].enrollmentSessionId == t[other].id == other;
        assert sessions[id].enrollmentSessionId == t[id].id == id;
      }
    }

    method GetStatus(id: string, o: Observed) returns (r: Result<SessionView, ControlBackendError>)
      requires Valid()
      modifies sessions.Values
      ensures Valid() && sessions == old(sessions) && Next(root, old(CurrentTable()), CurrentTable())
      ensures id !in sessions ==> r == Err(NotFound(id)) && CurrentTable() == old(CurrentTable())
      ensures id in sessions ==>
                var after := RefreshedView(old(CurrentTable())[id], o);
                && CurrentTable() == old(CurrentTable())[id := after.view]
                && r == if after.error.Some? then Err(after.error.value) else Ok(after.view)
    {
      var error := RefreshOne(id, o);
      if error.Some? {
        return Err(error.value);
      }
      return Ok(sessions[id].View());
    }

    /** The preview reads a file and touches the table no more than a status query does. */
    method GetPreview(id: string, o: Observed, previewFile: Option<seq<int>>)
      returns (r: Result<Option<seq<int>>, ControlBackendError>)
      requires Valid()
      modifies sessions.Values
      ensures Valid() && sessions == old(sessions) && Next(root, old(CurrentTable()), CurrentTable())
      ensures id !in sessions ==> r == Err(NotFound(id)) && CurrentTable() == old(CurrentTable())
      ensures id in sessions ==>
                var after := RefreshedView(old(CurrentTable())[id], o);
                && CurrentTable() == old(CurrentTable())[id := after.view]
                && r == if after.error.Some? then Err(after.error.value) else Ok(previewFile)
    {
      var error := RefreshOne(id, o);
      if error.Some? {
        return Err(error.value);
      }
      return Ok(previewFile);
    }

    /** Cancels a running session; one that has ended is only reported. */
    method Cancel(id: string, o: Observed, cancelProcess: Result<(), ControlBackendError>)
      returns (r: Result<SessionView, ControlBackendError>)
      requires Valid()
      modifies sessions.Values
      ensures Valid() && sessions == old(sessions) && Next(root, old(CurrentTable()), CurrentTable())
      ensures id !in sessions ==> r == Err(NotFound(id)) && CurrentTable() == old(CurrentTable())
      ensures id in sessions ==>
                var refresh := RefreshedView(old(CurrentTable())[id], o);
                var done := if refresh.error.Some? then Reported(refresh.view, Err(refresh.error.value))
                            else AfterCancel(refresh.view, cancelProcess);
                r == done.result && CurrentTable() == old(CurrentTable())[id := done.view]
    {
      ghost var t := CurrentTable();
      var error := RefreshOne(id, o);
      if error.Some? {
        return Err(error.value);
      }
      ghost var refreshed := CurrentTable();
      r := CancelRefreshed(id, cancelProcess);
      CancellingIsAStep(root, t, refreshed, id, o, cancelProcess);
    }

    method CancelRefreshed(id: string, cancelProcess: Result<(), ControlBackendError>)
      returns (r: Result<SessionView, ControlBackendError>)
      requires Valid() && id in sessions
      modifies sessions[id]
      ensures sessions == old(sessions)
      ensures var done := AfterCancel(old(CurrentTable())[id], cancelProcess);
              r == done.result && CurrentTable() == old(CurrentTable())[id := done.view]
    {
      assert SessionOk(root, id, CurrentTable()[id]);
      assert CurrentTable()[id := CurrentTable()[id]] == CurrentTable();
      var session := sessions[id];
      if !session.sessionState.IsRunning() {
        return Ok(session.View());
      }
      if session.process.Some? && cancelProcess.Err? {
        return Err(cancelProcess.error);
      }
      var view := MarkCancelled(id);
      return Ok(view);
    }

    method MarkCancelled(id: string) returns (view: SessionView)
      requires Valid() && id in sessions
      modifies sessions[id]
      ensures view == old(CurrentTable())[id].(process := None, state := SessionState.Cancelled, failureMessage := None)
      ensures CurrentTable() == old(CurrentTable())[id := view]
    {
      ghost var t := CurrentTable();
      var session := sessions[id];
      session.process := None;
      session.sessionState := SessionState.Cancelled;
      session.failureMessage := None;
      view := session.View();
      forall other | other in sessions && other != id ensures sessions[other].View() == t[other] {
        assert sessions[other].enrollmentSessionId == t[other].id == other;
        assert session.enrollmentSessionId == t[id].id == id;
      }
    }

    /**
     * Hands over the templates of a completed session.  A completed session always has
     * its summary, so the answer that it is missing is never given.
     */
    method Finish(id: string, o: Observed, applyTemplate: Result<(), ControlBackendError>)
      returns (r: Result<FinishOutcome, ControlBackendError>)
      requires Valid()
      modifies sessions.Values
      ensures Valid() && sessions == old(sessions) && Next(root, old(CurrentTable()), CurrentTable())
      ensures id !in sessions ==> r == Err(NotFound(id)) && CurrentTable() == old(CurrentTable())
      ensures id in sessions ==>
                var refresh := RefreshedView(old(CurrentTable())[id], o);
                var v := refresh.view;
                && CurrentTable() == old(CurrentTable())[id := v]
                && (if refresh.error.Some? then r == Err(refresh.error.value)
                    else
                      match v.state
                      case Completed =>
                        && v.templateSummary.Some?
                        && r == (if applyTemplate.Err? then Err(applyTemplate.error)
                                 else Ok(FinishOutcome(id, v.payload.userId, v.templateSummary.value)))
                      case Failed =>
                        && v.failureMessage.Some?
                        && r == Err(ControlBackendError(FaceEnrollmentFailed, v.failureMessage.value))
                      case Cancelled => r == Err(WAS_CANCELLED)
                      case _ => r == Err(STILL_RUNNING))
    {
      var error := RefreshOne(id, o);
      if error.Some? {
        return Err(error.value);
      }
      var session := sessions[id];
      assert CurrentTable()[id].Consistent() && CurrentTable()[id].id == id;
      match session.sessionState
      case Completed =>
        return FinishCompleted(session.View(), applyTemplate);
      case Failed =>
        var message := match session.failureMessage
          case Some(text) => text
          case None => "face enrollment session failed before a template was generated";
        return Err(ControlBackendError(FaceEnrollmentFailed, message));
      case Cancelled =>
        return Err(WAS_CANCELLED);
      case _ =>
        return Err(STILL_RUNNING);
    }
  }
}
