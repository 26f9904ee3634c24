/** One container's lifecycle: API stop, kill, start, restart and remove and the restart watcher
    take turns under the container's lifecycle guard, while the exit monitor, updates of the
    restart policy, the garbage collector and the container itself act at any time. */
module Lifecycle {
  import opened Wrappers

  datatype Policy = No | Always | UnlessStopped | OnFailure

  /** The stored record, as far as the lifecycle goes. */
  datatype Rec = Rec(policy: Policy, maxRetry: int, restarts: int, stoppedByUser: bool, exitCode: int,
                     started: bool, finished: bool, autoRemove: bool)

  /** What State() reports. */
  datatype Life = Running | Paused | Down

  predicate IsLive(l: Life) {
    l != Down
  }

  datatype StopKind = ApiStop | ApiKill | ForceRemove

  datatype StopPhase =
    | Begun                       // guard held, nothing written
    | Intended                    // StoppedByUser written
    | Acting(recorded: bool)      // stop() running; exit code written or not
    | RestoreExit                 // stop() failed: ExitCode to be restored
    | RestoreIntent(clean: bool)  // StoppedByUser to be restored; clean if ExitCode is as before
    | Acted(recorded: bool)       // stop() succeeded

  /** Who holds the lifecycle guard, and how far it has got. A stopper remembers the values it
      found: hadFlag and exitAtIntent when it wrote its intent, prevExit when it wrote the code. */
  datatype Holder =
    | Free
    | Stopper(kind: StopKind, phase: StopPhase, code: int, found: bool, hadFlag: bool, exitAtIntent: int,
              foundExit: bool, prevExit: int)
    | Starter(returned: bool)
    | Restarter(stopped: bool)
    | WatchRead(snap: Rec)
    | WatchStarting(snap: Rec, first: bool)
    | WatchCounting
    | Creator

  datatype State = State(rec: Option<Rec>, life: Life, holder: Holder)

  datatype StartOutcome = StartFailed | AlreadyLive | Started(stamped: bool)

  /** Atomic steps. `persisted` says whether the store could save the update; if not, the record
      stays as it was. */
  datatype Event =
    // at any time
    | MonitorExit(code: int, persisted: bool)
    | LifeChange(life: Life)
    | UpdatePolicy(policy: Policy, maxRetry: int, autoRemove: bool)
    | GcRemove  // decided on an earlier look at the record, so it can land whenever
    // stop, kill, forced remove
    | BeginStop(kind: StopKind, code: int)
    | RecordIntent(persisted: bool)
    | NotModified
    | RecordExitCode(persisted: bool)
    | ActDirectly
    | StopReturns(ok: bool)
    | RestoreExitCode(persisted: bool)
    | RestoreStopIntent(persisted: bool)
    | FinishStop(persisted: bool)
    | FinishRemove(ok: bool)
    // start, restart, remove, create
    | BeginStart
    | StartReturns(outcome: StartOutcome)
    | ClearIntent(persisted: bool)
    | BeginRestart
    | RestartStops(ok: bool)
    | Remove
    | BeginCreate(rec: Rec)
    | CreateReturns(ok: bool)
    // restart watcher
    | BeginWatch
    | WatchGone
    | WatchIdle
    | WatchNoteFinish(persisted: bool)
    | WatchAutoRemove
    | WatchDecideFirst
    | WatchDecide
    | WatchFirstStart(outcome: StartOutcome)
    | WatchRestart(outcome: StartOutcome)
    | CountRestart(persisted: bool)

  function ShouldRestart(r: Rec): bool {
    match r.policy
    case Always => true
    case UnlessStopped => !r.stoppedByUser
    case OnFailure => !(r.maxRetry > 0 && r.restarts >= r.maxRetry) && !r.stoppedByUser
    case No => false
  }

  function ShouldStartNeverStarted(r: Rec): bool {
    match r.policy
    case Always => true
    case UnlessStopped => !r.stoppedByUser
    case _ => false
  }

  /** exitCodeForSignal, for a signal given by number or by a known name. */
  function ExitCodeForSignal(n: nat): int {
    128 + n
  }

  // ----- Updates of the record -----

  function SetIntent(rec: Option<Rec>, flag: bool): Option<Rec> {
    if rec.Some? then Some(rec.value.(stoppedByUser := flag)) else None
  }

  function SetExit(rec: Option<Rec>, code: int): Option<Rec> {
    if rec.Some? then Some(rec.value.(exitCode := code)) else None
  }

  function SetFinished(rec: Option<Rec>): Option<Rec> {
    if rec.Some? then Some(rec.value.(finished := true)) else None
  }

  function AddRestart(rec: Option<Rec>): Option<Rec> {
    if rec.Some? then Some(rec.value.(restarts := rec.value.restarts + 1)) else None
  }

  /** recordExit: an exit the user asked for keeps the code the API recorded. */
  function RecordExit(rec: Option<Rec>, code: int): Option<Rec> {
    if rec.Some? && !rec.value.stoppedByUser then Some(rec.value.(exitCode := code, finished := true)) else rec
  }

  function Write(s: State, persisted: bool, rec: Option<Rec>): State {
    if persisted then s.(rec := rec) else s
  }

  /** stampStarted, when a start brought the container up. */
  function Stamp(s: State, outcome: StartOutcome): State {
    if !outcome.Started? then s
    else if outcome.stamped && s.rec.Some? then
      s.(life := Running, rec := Some(s.rec.value.(started := true, finished := false, exitCode := 0)))
    else s.(life := Running)
  }

  // ----- Steps -----

  function StepFree(s: State, e: Event): Option<State> {
    match e
    case MonitorExit(code, persisted) =>
      Some(Write(s, persisted, RecordExit(s.rec, code)))
    case LifeChange(l) => Some(s.(life := l))
    case UpdatePolicy(p, m, a) =>
      Some(if s.rec.Some? then s.(rec := Some(s.rec.value.(policy := p, maxRetry := m, autoRemove := a))) else s)
    case GcRemove => Some(s.(rec := None))
    case _ => None
  }

  function StepBegin(s: State, e: Event): Option<State>
    requires s.holder.Free?
  {
    match e
    case BeginStop(kind, code) =>
      if (kind.ApiKill? && !IsLive(s.life)) || (kind.ForceRemove? && s.life != Running) then None
      else Some(s.(holder := Stopper(kind, Begun, code, false, false, 0, false, 0)))
    case BeginStart => if s.life != Down then None else Some(s.(holder := Starter(false)))
    case BeginRestart => Some(s.(holder := Restarter(!IsLive(s.life))))
    case Remove => if s.life != Down then None else Some(s.(rec := None))
    case BeginCreate(r) =>
      if r.stoppedByUser || r.started || r.restarts != 0 then None else Some(s.(rec := Some(r), holder := Creator))
    case BeginWatch => if s.rec.None? then None else Some(s.(holder := WatchRead(s.rec.value)))
    case _ => None
  }

  function StepStop(s: State, e: Event): Option<State>
    requires s.holder.Stopper?
  {
    var h := s.holder;
    match (h.phase, e)
    case (Begun, RecordIntent(persisted)) =>
      if !persisted then Some(s.(holder := Free))
      else if s.rec.None? then Some(s.(holder := h.(phase := Intended)))
      else
        var h' := h.(phase := Intended, found := true, hadFlag := s.rec.value.stoppedByUser,
                     exitAtIntent := s.rec.value.exitCode);
        Some(s.(rec := SetIntent(s.rec, true), holder := h'))
    case (Intended, NotModified) =>
      if h.kind.ApiStop? && !IsLive(s.life) then Some(s.(holder := Free)) else None
    case (Intended, RecordExitCode(persisted)) =>
      if h.kind.ForceRemove? || (h.kind.ApiStop? && !IsLive(s.life)) then None
      else if !persisted then Some(s.(holder := h.(phase := RestoreIntent(true))))
      else if s.rec.None? then Some(s.(holder := h.(phase := Acting(true))))
      else
        var h' := h.(phase := Acting(true), foundExit := true, prevExit := s.rec.value.exitCode);
        Some(s.(rec := SetExit(s.rec, h.code), holder := h'))
    case (Intended, ActDirectly) =>
      if h.kind.ForceRemove? then Some(s.(holder := h.(phase := Acting(false)))) else None
    case (Acting(recorded), StopReturns(ok)) =>
      var failed := if recorded && h.foundExit then RestoreExit else RestoreIntent(true);
      Some(s.(holder := h.(phase := if ok then Acted(recorded) else failed)))
    case (RestoreExit, RestoreExitCode(persisted)) =>
      Some(Write(s, persisted, SetExit(s.rec, h.prevExit)).(holder := h.(phase := RestoreIntent(persisted))))
    case (RestoreIntent(clean), RestoreStopIntent(persisted)) =>
      Some(Write(s, persisted && h.found && !h.hadFlag, SetIntent(s.rec, false)).(holder := Free))
    case (Acted(recorded), FinishStop(persisted)) =>
      if h.kind.ForceRemove? then None
      else Some(Write(s, persisted, SetFinished(s.rec)).(holder := Free))
    case (Acted(recorded), FinishRemove(ok)) =>
      if h.kind.ForceRemove? then Some((if ok then s.(rec := None) else s).(holder := Free)) else None
    case _ => None
  }

  function StepOther(s: State, e: Event): Option<State> {
    match (s.holder, e)
    case (Starter(false), StartReturns(o)) =>
      Some(Stamp(s, o).(holder := if o.StartFailed? then Free else Starter(true)))
    case (Starter(true), ClearIntent(persisted)) =>
      Some(Write(s, persisted, SetIntent(s.rec, false)).(holder := Free))
    case (Restarter(false), RestartStops(ok)) => Some(s.(holder := if ok then Restarter(true) else Free))
    case (Restarter(true), StartReturns(o)) => Some(Stamp(s, o).(holder := Free))
    case (Creator, CreateReturns(ok)) => Some((if ok then s else s.(rec := None)).(holder := Free))
    case _ => None
  }

  function StepWatch(s: State, e: Event): Option<State> {
    match (s.holder, e)
    case (WatchRead(snap), WatchGone) => Some(s.(rec := None, holder := Free))
    case (WatchRead(snap), WatchIdle) => Some(s.(holder := Free))
    case (WatchRead(snap), WatchNoteFinish(persisted)) =>
      if !snap.started || snap.finished then None
      else if !persisted || s.rec.None? then Some(s.(holder := Free))
      else
        var r := s.rec.value.(finished := true);
        Some(s.(rec := Some(r), holder := WatchRead(r)))
    case (WatchRead(snap), WatchAutoRemove) =>
      if snap.started && snap.finished && snap.autoRemove then Some(s.(rec := None, holder := Free)) else None
    case (WatchRead(snap), WatchDecideFirst) =>
      if !snap.started && ShouldStartNeverStarted(snap) && s.life != Running then
        Some(s.(holder := WatchStarting(snap, true)))
      else None
    case (WatchRead(snap), WatchDecide) =>
      if snap.started && snap.finished && !snap.autoRemove && ShouldRestart(snap) then
        Some(s.(holder := WatchStarting(snap, false)))
      else None
    case (WatchStarting(snap, true), WatchFirstStart(o)) => Some(Stamp(s, o).(holder := Free))
    case (WatchStarting(snap, false), WatchRestart(o)) =>
      Some(Stamp(s, o).(holder := if o.StartFailed? then Free else WatchCounting))
    case (WatchCounting, CountRestart(persisted)) =>
      Some(Write(s, persisted, AddRestart(s.rec)).(holder := Free))
    case _ => None
  }

  /** The step an event makes, if it is enabled. */
  function Step(s: State, e: Event): Option<State> {
    if StepFree(s, e).Some? then StepFree(s, e)
    else if s.holder.Free? then StepBegin(s, e)
    else if s.holder.Stopper? then StepStop(s, e)
    else if StepOther(s, e).Some? then StepOther(s, e)
    else StepWatch(s, e)
  }

  function Run(s: State, es: seq<Event>): Option<State> {
    if es == [] then Some(s)
    else
      var before := Run(s, es[..|es| - 1]);
      if before.None? then None else Step(before.value, es[|es| - 1])
  }

  // ----- What every step keeps -----

  ghost predicate Flagged(s: State, flag: bool) {
    s.rec.Some? ==> s.rec.value.stoppedByUser == flag
  }

  ghost predicate Coded(s: State, code: int) {
    s.rec.Some? ==> s.rec.value.exitCode == code
  }

  /** The stop has written the exit code it will leave, and must take it back if it fails. */
  predicate Owes(h: Holder)
    requires h.Stopper?
  {
    h.foundExit && (h.phase.RestoreExit? || ((h.phase.Acting? || h.phase.Acted?) && h.phase.recorded))
  }

  ghost predicate StopInv(s: State)
    requires s.holder.Stopper?
  {
    var h := s.holder;
    && (h.phase.Begun? ==> !h.found && !h.foundExit)
    && (h.phase.Intended? ==> !h.foundExit)
    && (h.phase.RestoreExit? ==> Owes(h))
    && (h.foundExit && (h.phase.Acting? || h.phase.Acted?) ==> h.phase.recorded)
    && ((h.phase.Acting? || h.phase.Acted?) && !h.phase.recorded ==> h.kind.ForceRemove?)
    && (!h.phase.Begun? && !h.found ==> s.rec.None?)
    && ((h.phase.Acting? || h.phase.Acted?) && h.phase.recorded && !h.foundExit ==> s.rec.None?)
    && (h.found ==> Flagged(s, true))
    && (Owes(h) ==> h.found && h.prevExit == h.exitAtIntent && Coded(s, h.code))
    && (h.found && !Owes(h) && (h.phase.RestoreIntent? ==> h.phase.clean) ==> Coded(s, h.exitAtIntent))
  }

  ghost predicate WatchInv(s: State, snap: Rec) {
    s.rec.Some? ==> s.rec.value.stoppedByUser == snap.stoppedByUser && s.rec.value.restarts == snap.restarts
  }

  /** While a guard is held, the record is as its holder left it. */
  ghost predicate Inv(s: State) {
    match s.holder
    case Stopper(_, _, _, _, _, _, _, _) => StopInv(s)
    case WatchRead(snap) => WatchInv(s, snap)
    case WatchStarting(snap, first) =>
      WatchInv(s, snap) && if first then ShouldStartNeverStarted(snap) else ShouldRestart(snap)
    case _ => true
  }

  lemma InvStepFree(s: State, e: Event)
    requires Inv(s) && StepFree(s, e).Some?
    ensures Inv(StepFree(s, e).value)
  {
  }

  lemma InvStepStop(s: State, e: Event)
    requires s.holder.Stopper? && StopInv(s) && StepStop(s, e).Some?
    ensures Inv(StepStop(s, e).value)
  {
  }

  lemma InvStepBegin(s: State, e: Event)
    requires s.holder.Free? && StepBegin(s, e).Some?
    ensures Inv(StepBegin(s, e).value)
  {
  }

  lemma InvStepOther(s: State, e: Event)
    requires StepOther(s, e).Some?
    ensures Inv(StepOther(s, e).value)
  {
  }

  lemma InvStepWatch(s: State, e: Event)
    requires Inv(s) && StepWatch(s, e).Some?
    ensures Inv(StepWatch(s, e).value)
  {
  }

  lemma InvStep(s: State, e: Event)
    requires Inv(s) && Step(s, e).Some?
    ensures Inv(Step(s, e).value)
  {
    if StepFree(s, e).Some? {
      InvStepFree(s, e);
    } else if s.holder.Free? {
      InvStepBegin(s, e);
    } else if s.holder.Stopper? {
      InvStepStop(s, e);
    } else if StepOther(s, e).Some? {
      InvStepOther(s, e);
    } else {
      InvStepWatch(s, e);
    }
  }

  lemma {:induction false} InvRun(s: State, es: seq<Event>)
    requires Inv(s) && Run(s, es).Some?
    ensures Inv(Run(s, es).value)
  {
    if es != [] {
      InvRun(s, es[..|es| - 1]);
      InvStep(Run(s, es[..|es| - 1]).value, es[|es| - 1]);
    }
  }

  /** In every interleaving the watcher starts a container that the user stopped only if the policy
      it read is "always". */
  lemma WatcherRespectsStop(s: State, es: seq<Event>, outcome: StartOutcome, e: Event)
    requires s.holder.Free? && Run(s, es).Some?
    requires e == WatchFirstStart(outcome) || e == WatchRestart(outcome)
    requires Step(Run(s, es).value, e).Some?
    ensures var now := Run(s, es).value;
            now.rec.Some? && now.rec.value.stoppedByUser ==> now.holder.WatchStarting? && now.holder.snap.policy.Always?
  {
    InvRun(s, es);
  }

  // ----- A stop sticks -----

  ghost predicate Sticky(s: State) {
    && Flagged(s, true)
    && (s.holder.Stopper? && !s.holder.phase.Begun? && s.holder.found ==> s.holder.hadFlag)
    && !s.holder.Creator?
  }

  predicate Unsticks(e: Event) {
    e.BeginCreate? || (e.ClearIntent? && e.persisted)
  }

  lemma StickyStepStop(s: State, e: Event)
    requires s.holder.Stopper? && StopInv(s) && Sticky(s) && StepStop(s, e).Some? && !Unsticks(e)
    ensures Sticky(StepStop(s, e).value)
  {
  }

  lemma StickyStepBegin(s: State, e: Event)
    requires s.holder.Free? && Sticky(s) && StepBegin(s, e).Some? && !Unsticks(e)
    ensures Sticky(StepBegin(s, e).value)
  {
  }

  lemma StickyStepOther(s: State, e: Event)
    requires !s.holder.Stopper? && Sticky(s) && !Unsticks(e)
    ensures StepOther(s, e).Some? ==> Sticky(StepOther(s, e).value)
    ensures StepWatch(s, e).Some? ==> Sticky(StepWatch(s, e).value)
  {
  }

  lemma StickyStepFree(s: State, e: Event)
    requires Sticky(s) && StepFree(s, e).Some?
    ensures Sticky(StepFree(s, e).value)
  {
  }

  lemma StickyStep(s: State, e: Event)
    requires Inv(s) && Sticky(s) && Step(s, e).Some? && !Unsticks(e)
    ensures Sticky(Step(s, e).value)
  {
    if StepFree(s, e).Some? {
      StickyStepFree(s, e);
    } else if s.holder.Free? {
      StickyStepBegin(s, e);
    } else if s.holder.Stopper? {
      StickyStepStop(s, e);
    } else {
      StickyStepOther(s, e);
    }
  }

  lemma {:induction false} StickyRun(s: State, es: seq<Event>)
    requires Inv(s) && Sticky(s) && Run(s, es).Some? && forall i :: 0 <= i < |es| ==> !Unsticks(es[i])
    ensures Sticky(Run(s, es).value)
  {
    if es != [] {
      StickyRun(s, es[..|es| - 1]);
      InvRun(s, es[..|es| - 1]);
      StickyStep(Run(s, es[..|es| - 1]).value, es[|es| - 1]);
    }
  }

  /** A stop or kill that succeeded, or found nothing to stop, leaves StoppedByUser set in every
      continuation until an API start clears it or the container is created anew. */
  lemma SuccessfulStopSticks(s: State, es: seq<Event>, e: Event, later: seq<Event>)
    requires s.holder.Free? && Run(s, es + [e]).Some?
    requires e.FinishStop? || e.NotModified?
    requires Run(Run(s, es + [e]).value, later).Some?
    requires forall i :: 0 <= i < |later| ==> !Unsticks(later[i])
    ensures Flagged(Run(Run(s, es + [e]).value, later).value, true)
  {
    assert (es + [e])[..|es|] == es;
    InvRun(s, es);
    StickyRun(Run(s, es + [e]).value, later);
  }

  // ----- The exit code of the latest stop stays -----

  /** What ends a stop: a start that stamps the record, an API start that lifts the stop, a re-creation. */
  predicate Lifts(e: Event) {
    || Unsticks(e)
    || ((e.StartReturns? || e.WatchFirstStart? || e.WatchRestart?) && e.outcome.Started? && e.outcome.stamped)
  }

  /** What the events say about the code: the one that stands, the one the stop in progress would leave,
      and whether that one is written already. */
  datatype Trail = Trail(settled: int, pending: int, written: bool)

  function TrailStep(t: Trail, e: Event): Trail {
    match e
    case BeginStop(_, code) => t.(pending := code, written := false)
    case RecordExitCode(persisted) => t.(written := persisted)
    case StopReturns(ok) => if ok && t.written then t.(settled := t.pending) else t
    case RestoreExitCode(persisted) => if persisted then t else t.(settled := t.pending)
    case _ => t
  }

  /** The code that stands after these events is that of the latest stop that succeeded, or that failed
      and could not save its rollback; before any, it is the one given. */
  function TrailAfter(code: int, es: seq<Event>): Trail {
    if es == [] then Trail(code, 0, false) else TrailStep(TrailAfter(code, es[..|es| - 1]), es[|es| - 1])
  }

  /** The record has the code that stands, unless a stop in progress has written its own. */
  ghost predicate HasCode(s: State, t: Trail) {
    if s.holder.Stopper? then
      var h := s.holder;
      && t.pending == h.code
      && (h.phase.Begun? || h.phase.Intended? ==> !t.written)
      && (h.phase.Acting? ==> t.written == h.phase.recorded)
      && (if h.phase.RestoreExit? || (h.phase.Acting? && h.phase.recorded)
          then s.rec.Some? ==> h.foundExit && h.prevExit == t.settled
          else Coded(s, t.settled))
    else Coded(s, t.settled)
  }

  lemma HasCodeStepStop(s: State, e: Event, t: Trail)
    requires s.holder.Stopper? && StopInv(s) && HasCode(s, t) && StepStop(s, e).Some?
    ensures HasCode(StepStop(s, e).value, TrailStep(t, e))
  {
  }

  lemma HasCodeStepFree(s: State, e: Event, t: Trail)
    requires HasCode(s, t) && Flagged(s, true) && StepFree(s, e).Some?
    ensures HasCode(StepFree(s, e).value, TrailStep(t, e))
  {
  }

  lemma HasCodeStepBegin(s: State, e: Event, t: Trail)
    requires s.holder.Free? && HasCode(s, t) && StepBegin(s, e).Some? && !Lifts(e)
    ensures HasCode(StepBegin(s, e).value, TrailStep(t, e))
  {
  }

  lemma HasCodeStepOther(s: State, e: Event, t: Trail)
    requires !s.holder.Stopper? && HasCode(s, t) && !Lifts(e)
    ensures StepOther(s, e).Some? ==> HasCode(StepOther(s, e).value, TrailStep(t, e))
  {
  }

  lemma HasCodeStepWatch(s: State, e: Event, t: Trail)
    requires !s.holder.Stopper? && HasCode(s, t) && StepWatch(s, e).Some? && !Lifts(e)
    ensures HasCode(StepWatch(s, e).value, TrailStep(t, e))
  {
  }

  lemma HasCodeStep(s: State, e: Event, t: Trail)
    requires Inv(s) && Flagged(s, true) && HasCode(s, t) && Step(s, e).Some? && !Lifts(e)
    ensures HasCode(Step(s, e).value, TrailStep(t, e))
  {
    if StepFree(s, e).Some? {
      HasCodeStepFree(s, e, t);
    } else if s.holder.Free? {
      HasCodeStepBegin(s, e, t);
    } else if s.holder.Stopper? {
      HasCodeStepStop(s, e, t);
    } else {
      HasCodeStepOther(s, e, t);
      if StepOther(s, e).None? {
        HasCodeStepWatch(s, e, t);
      }
    }
  }

  lemma {:induction false} HasCodeRun(s: State, code: int, es: seq<Event>)
    requires s.holder.Free? && Sticky(s) && Coded(s, code)
    requires Run(s, es).Some? && forall i :: 0 <= i < |es| ==> !Lifts(es[i])
    ensures HasCode(Run(s, es).value, TrailAfter(code, es))
  {
    if es != [] {
      var front, e := es[..|es| - 1], es[|es| - 1];
      var before, t := Run(s, front).value, TrailAfter(code, front);
      HasCodeRun(s, code, front);
      InvRun(s, front);
      StickyRun(s, front);
      HasCodeStep(before, e, t);
    }
  }

  lemma FinishedHasCode(s: State, persisted: bool)
    requires s.holder.Stopper? && StopInv(s) && Step(s, FinishStop(persisted)).Some?
    ensures var done := Step(s, FinishStop(persisted)).value;
            done.holder.Free? && Sticky(done) && Coded(done, s.holder.code)
  {
  }

  /** After a stop or kill by signal n that acted on a live container, and until it is lifted, whatever
      the monitor reports: whenever no operation holds the guard the recorded code is that of the latest
      stop that succeeded or could not save its rollback, beginning with 128+n. */
  lemma StopCodeSticks(s: State, es: seq<Event>, persisted: bool, n: nat, later: seq<Event>)
    requires s.holder.Free? && Run(s, es).Some?
    requires Run(s, es).value.holder.Stopper? && Run(s, es).value.holder.code == ExitCodeForSignal(n)
    requires Run(s, es + [FinishStop(persisted)]).Some?
    requires Run(Run(s, es + [FinishStop(persisted)]).value, later).Some?
    requires forall i :: 0 <= i < |later| ==> !Lifts(later[i])
    ensures var now := Run(Run(s, es + [FinishStop(persisted)]).value, later).value;
            now.holder.Free? ==> Coded(now, TrailAfter(128 + n, later).settled)
  {
    RunStep(s, es, FinishStop(persisted), Run(s, es).value);
    InvRun(s, es);
    FinishedHasCode(Run(s, es).value, persisted);
    HasCodeRun(Run(s, es + [FinishStop(persisted)]).value, 128 + n, later);
  }

  /** With no such later stop the code that stands is the given one. */
  lemma {:induction false} TrailStands(code: int, es: seq<Event>)
    requires forall i :: 0 <= i < |es| ==> !(es[i].StopReturns? && es[i].ok)
    requires forall i :: 0 <= i < |es| ==> !(es[i].RestoreExitCode? && !es[i].persisted)
    ensures TrailAfter(code, es).settled == code
  {
    if es != [] {
      TrailStands(code, es[..|es| - 1]);
    }
  }

  function StopEvents(kind: StopKind, code: int): seq<Event> {
    [BeginStop(kind, code), RecordIntent(true), RecordExitCode(true), StopReturns(true), FinishStop(true)]
  }

  lemma RunStep(s: State, es: seq<Event>, e: Event, mid: State)
    requires Run(s, es) == Some(mid)
    ensures Run(s, es + [e]) == Step(mid, e)
  {
    assert (es + [e])[..|es|] == es;
  }

  lemma RecordStep(s: State)
    requires s.holder.Stopper? && !s.holder.kind.ForceRemove? && s.holder.phase.Intended? && s.rec.Some?
    requires s.life == Running
    ensures Step(s, RecordExitCode(true))
         == Some(State(Some(s.rec.value.(exitCode := s.holder.code)), Running,
                       s.holder.(phase := Acting(true), foundExit := true, prevExit := s.rec.value.exitCode)))
  {
  }

  lemma FinishSteps(s: State)
    requires s.holder.Stopper? && !s.holder.kind.ForceRemove? && s.holder.phase == Acting(true) && s.rec.Some?
    ensures Step(s, StopReturns(true)) == Some(s.(holder := s.holder.(phase := Acted(true))))
    ensures Step(s.(holder := s.holder.(phase := Acted(true))), FinishStop(true))
         == Some(State(Some(s.rec.value.(finished := true)), s.life, Free))
  {
  }

  lemma StopActs(s: State, es: seq<Event>, mid: State)
    requires Run(s, es) == Some(mid)
    requires mid.holder.Stopper? && !mid.holder.kind.ForceRemove? && mid.holder.phase.Intended? && mid.rec.Some?
    requires mid.life == Running
    ensures Run(s, es + [RecordExitCode(true), StopReturns(true), FinishStop(true)])
         == Some(State(Some(mid.rec.value.(exitCode := mid.holder.code, finished := true)), Running, Free))
  {
    RecordStep(mid);
    var s3 := Step(mid, RecordExitCode(true)).value;
    var s4 := s3.(holder := s3.holder.(phase := Acted(true)));
    FinishSteps(s3);
    var es3 := es + [RecordExitCode(true)];
    RunStep(s, es, RecordExitCode(true), mid);
    RunStep(s, es3, StopReturns(true), s3);
    RunStep(s, es3 + [StopReturns(true)], FinishStop(true), s4);
    assert es3 + [StopReturns(true)] + [FinishStop(true)]
        == es + [RecordExitCode(true), StopReturns(true), FinishStop(true)];
  }

  /** A stop or kill of a running container that meets no failure writes its code. */
  lemma StopWrites(s: State, es: seq<Event>, mid: State, kind: StopKind, code: int)
    requires Run(s, es) == Some(mid)
    requires mid.holder.Free? && mid.rec.Some? && mid.life == Running && !kind.ForceRemove?
    ensures Run(s, es + StopEvents(kind, code))
         == Some(State(Some(mid.rec.value.(stoppedByUser := true, exitCode := code, finished := true)), Running, Free))
  {
    var h := Stopper(kind, Begun, code, false, false, 0, false, 0);
    var h2 := h.(phase := Intended, found := true, hadFlag := mid.rec.value.stoppedByUser,
                 exitAtIntent := mid.rec.value.exitCode);
    var s2 := State(Some(mid.rec.value.(stoppedByUser := true)), Running, h2);
    var rest := [RecordExitCode(true), StopReturns(true), FinishStop(true)];
    var es2 := es + [BeginStop(kind, code)] + [RecordIntent(true)];
    assert es + StopEvents(kind, code) == es2 + rest;
    RunStep(s, es, BeginStop(kind, code), mid);
    RunStep(s, es + [BeginStop(kind, code)], RecordIntent(true), mid.(holder := h));
    StopActs(s, es2, s2);
  }

  /** The code does not survive a second stop: a container that outlives a kill by signal 1 and is
      then stopped by signal 15 reads 143, with no start in between. */
  lemma SecondStopOverwrites(rec: Rec)
    ensures var s := State(Some(rec), Running, Free);
            var kill := StopEvents(ApiKill, ExitCodeForSignal(1));
            var stop := StopEvents(ApiStop, ExitCodeForSignal(15));
            && Run(s, kill).Some? && Run(s, kill).value.rec.Some? && Run(s, kill).value.rec.value.exitCode == 129
            && Run(s, kill + stop).Some? && Run(s, kill + stop).value.rec.Some?
            && Run(s, kill + stop).value.rec.value.exitCode == 143
  {
    var s := State(Some(rec), Running, Free);
    var kill := StopEvents(ApiKill, 129);
    assert [] + kill == kill;
    StopWrites(s, [], s, ApiKill, 129);
    StopWrites(s, kill, Run(s, kill).value, ApiStop, 143);
  }

  // ----- A failed stop restores -----

  /** A stop or kill that fails, once its rollback is saved, leaves StoppedByUser and ExitCode as they
      were when it recorded its intent, whatever happened meanwhile. */
  lemma FailedStopRestores(s: State, es: seq<Event>)
    requires s.holder.Free? && Run(s, es + [RestoreStopIntent(true)]).Some?
    requires Run(s, es).value.holder.phase.clean && Run(s, es).value.holder.found
    ensures var h := Run(s, es).value.holder;
            && Flagged(Run(s, es + [RestoreStopIntent(true)]).value, h.hadFlag)
            && Coded(Run(s, es + [RestoreStopIntent(true)]).value, h.exitAtIntent)
  {
    assert (es + [RestoreStopIntent(true)])[..|es|] == es;
    InvRun(s, es);
  }

  // ----- Restarts are bounded -----

  /** Successful restarts by the watcher. */
  function Restarts(es: seq<Event>): nat {
    if es == [] then 0
    else Restarts(es[..|es| - 1]) + if es[|es| - 1].WatchRestart? && !es[|es| - 1].outcome.StartFailed? then 1 else 0
  }

  /** Restarts whose count could not be saved. */
  function Uncounted(es: seq<Event>): nat {
    if es == [] then 0
    else Uncounted(es[..|es| - 1]) + if es[|es| - 1].CountRestart? && !es[|es| - 1].persisted then 1 else 0
  }

  predicate KeepsPolicy(e: Event, max: int) {
    !e.BeginCreate? && (e.UpdatePolicy? ==> e.policy.OnFailure? && e.maxRetry == max)
  }

  ghost predicate Budget(s: State, max: int, start: int, done: nat, uncounted: nat) {
    && (s.rec.Some? ==> s.rec.value.policy.OnFailure? && s.rec.value.maxRetry == max)
    && (s.rec.Some? ==> s.rec.value.restarts + uncounted + (if s.holder.WatchCounting? then 1 else 0) >= start + done)
    && (s.holder.WatchRead? || s.holder.WatchStarting? ==> s.holder.snap.policy.OnFailure?)
    && (s.holder.WatchRead? || s.holder.WatchStarting? ==> s.holder.snap.maxRetry == max)
    && (s.holder.WatchRead? || s.holder.WatchStarting? ==> s.holder.snap.restarts + uncounted >= start + done)
    && (done > 0 ==> start + done <= max + uncounted)
  }

  lemma BudgetStepStop(s: State, e: Event, max: int, start: int, done: nat, uncounted: nat)
    requires s.holder.Stopper? && Budget(s, max, start, done, uncounted) && StepStop(s, e).Some?
    ensures Budget(StepStop(s, e).value, max, start, done, uncounted) && !e.WatchRestart? && !e.CountRestart?
  {
  }

  lemma BudgetStepWatch(s: State, e: Event, max: int, start: int, done: nat, uncounted: nat)
    requires max > 0 && Inv(s) && Budget(s, max, start, done, uncounted) && StepWatch(s, e).Some?
    ensures Budget(StepWatch(s, e).value, max, start,
                   done + (if e.WatchRestart? && !e.outcome.StartFailed? then 1 else 0),
                   uncounted + (if e.CountRestart? && !e.persisted then 1 else 0))
  {
  }

  lemma BudgetStep(s: State, e: Event, max: int, start: int, done: nat, uncounted: nat)
    requires max > 0 && Inv(s) && Budget(s, max, start, done, uncounted) && Step(s, e).Some? && KeepsPolicy(e, max)
    ensures Budget(Step(s, e).value, max, start,
                   done + (if e.WatchRestart? && !e.outcome.StartFailed? then 1 else 0),
                   uncounted + (if e.CountRestart? && !e.persisted then 1 else 0))
  {
    if StepFree(s, e).None? && !s.holder.Free? {
      if s.holder.Stopper? {
        BudgetStepStop(s, e, max, start, done, uncounted);
      } else if StepOther(s, e).None? {
        BudgetStepWatch(s, e, max, start, done, uncounted);
      }
    }
  }

  lemma {:induction false} BudgetRun(s: State, es: seq<Event>, max: int)
    requires s.holder.Free? && s.rec.Some? && s.rec.value.policy.OnFailure? && s.rec.value.maxRetry == max > 0
    requires Run(s, es).Some? && forall i :: 0 <= i < |es| ==> KeepsPolicy(es[i], max)
    ensures Budget(Run(s, es).value, max, s.rec.value.restarts, Restarts(es), Uncounted(es))
  {
    if es != [] {
      BudgetRun(s, es[..|es| - 1], max);
      InvRun(s, es[..|es| - 1]);
      var front := es[..|es| - 1];
      BudgetStep(Run(s, front).value, es[|es| - 1], max, s.rec.value.restarts, Restarts(front), Uncounted(front));
    }
  }

  /** With policy on-failure and maximum N > 0 kept, the watcher restarts the container at most N times
      over the whole run, plus once for every restart whose count could not be saved. */
  lemma RestartsBounded(s: State, es: seq<Event>, max: int)
    requires s.holder.Free? && s.rec.Some? && s.rec.value.policy.OnFailure? && s.rec.value.maxRetry == max > 0
    requires 0 <= s.rec.value.restarts
    requires Run(s, es).Some? && forall i :: 0 <= i < |es| ==> KeepsPolicy(es[i], max)
    ensures Restarts(es) <= max + Uncounted(es)
  {
    BudgetRun(s, es, max);
  }
}
