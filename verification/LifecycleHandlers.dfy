/** The stop and kill handlers and the restart watcher as sequential code over the stored record, with
    lock-free events of others between their updates. Every execution is a run of the lifecycle protocol. */
module LifecycleHandlers {
  import opened Wrappers
  import opened Lifecycle

  /** Whether each update could be saved, and whether the stop itself succeeded. */
  datatype Luck = Luck(intentSaved: bool, codeSaved: bool, stops: bool, codeRestored: bool, intentRestored: bool,
                       finishSaved: bool)

  datatype Answer = Conflict | Failed | Unmodified | Stopped

  predicate LockFree(e: Event) {
    e.MonitorExit? || e.LifeChange? || e.UpdatePolicy? || e.GcRemove?
  }

  /** What no lock-free event does: create a record, or touch its flag or its restart count. */
  predicate Undisturbed(was: Option<Rec>, now: Option<Rec>) {
    now.Some? ==>
      && was.Some?
      && now.value.stoppedByUser == was.value.stoppedByUser
      && now.value.restarts == was.value.restarts
  }

  predicate SameStart(was: Option<Rec>, now: Option<Rec>) {
    now.Some? && was.Some? ==> now.value.started == was.value.started
  }

  /** The state after a start by the watcher. */
  function AfterStart(s: State, outcome: StartOutcome): State
    requires s.holder.WatchStarting?
  {
    Stamp(s, outcome).(holder := if s.holder.first || outcome.StartFailed? then Free else WatchCounting)
  }

  lemma StartSteps(s: State, outcome: StartOutcome)
    requires s.holder.WatchStarting?
    ensures Step(s, if s.holder.first then WatchFirstStart(outcome) else WatchRestart(outcome))
         == Some(AfterStart(s, outcome))
  {
  }

  class Handler {
    var rec: Option<Rec>
    var life: Life
    ghost const start: State
    ghost var holder: Holder
    ghost var trace: seq<Event>

    constructor (s: State)
      requires s.holder.Free?
      ensures Follows() && start == s && State(rec, life, holder) == s
    {
      rec, life, start, holder, trace := s.rec, s.life, s, Free, [];
    }

    /** What happened so far is a run of the protocol. */
    ghost predicate Follows()
      reads this
    {
      start.holder.Free? && Run(start, trace) == Some(State(rec, life, holder))
    }

    ghost method Note(e: Event, now: State)
      requires start.holder.Free? && Run(start, trace).Some? && Step(Run(start, trace).value, e) == Some(now)
      requires rec == now.rec && life == now.life
      modifies this`holder, this`trace
      ensures holder == now.holder && Follows() && trace == old(trace) + [e]
    {
      RunStep(start, trace, e, Run(start, trace).value);
      holder, trace := now.holder, trace + [e];
    }

    /** Others act without the guard: the exit monitor, the container itself, policy updates and the
        garbage collector. */
    method Others(es: seq<Event>)
      requires Follows() && forall i :: 0 <= i < |es| ==> LockFree(es[i])
      modifies this
      ensures Follows() && holder == old(holder) && Undisturbed(old(rec), rec) && SameStart(old(rec), rec)
    {
      for i := 0 to |es|
        invariant Follows() && holder == old(holder) && Undisturbed(old(rec), rec) && SameStart(old(rec), rec)
      {
        Other(es[i]);
      }
    }

    method Other(e: Event)
      requires Follows() && LockFree(e)
      modifies this
      ensures Follows() && holder == old(holder) && Undisturbed(old(rec), rec) && SameStart(old(rec), rec)
    {
      var s := StepFree(State(rec, life, Free), e);
      if s.Some? {
        ghost var now := State(s.value.rec, s.value.life, holder);
        rec, life := s.value.rec, s.value.life;
        Note(e, now);
      }
    }

    /** The first update of stopWithIntentLocked. */
    method RecordIntent(kind: StopKind, code: int, saved: bool) returns (prev: bool, found: bool)
      requires Follows() && holder == Stopper(kind, Begun, code, false, false, 0, false, 0)
      modifies this
      ensures Follows() && life == old(life)
      ensures !saved ==> holder.Free? && rec == old(rec)
      ensures saved ==>
                && found == old(rec).Some?
                && (found ==> prev == old(rec).value.stoppedByUser && rec.Some?)
                && holder == Stopper(kind, Intended, code, found, found && prev,
                                     if found then old(rec).value.exitCode else 0, false, 0)
    {
      prev, found := false, false;
      ghost var now := Step(State(rec, life, holder), Event.RecordIntent(saved)).value;
      if saved && rec.Some? {
        prev, found := rec.value.stoppedByUser, true;
        rec := Some(rec.value.(stoppedByUser := true));
      }
      Note(Event.RecordIntent(saved), now);
    }

    /** The first update of stopRecordingExit. */
    method RecordCode(code: int, saved: bool) returns (prev: int, found: bool)
      requires Follows() && holder.Stopper? && holder.phase.Intended? && !holder.foundExit && holder.code == code
      requires holder.kind.ApiKill? || (holder.kind.ApiStop? && IsLive(life))
      modifies this
      ensures Follows()
      ensures !saved ==> holder == old(holder).(phase := StopPhase.RestoreIntent(true))
      ensures saved ==> found == old(rec).Some? && (found ==> prev == old(rec).value.exitCode)
      ensures saved ==> holder.Stopper? && holder.prevExit == if found then prev else old(holder).prevExit
      ensures saved ==> holder == old(holder).(phase := Acting(true), foundExit := found, prevExit := holder.prevExit)
    {
      prev, found := 0, false;
      ghost var now := Step(State(rec, life, holder), Event.RecordExitCode(saved)).value;
      if saved && rec.Some? {
        prev, found := rec.value.exitCode, true;
        rec := Some(rec.value.(exitCode := code));
      }
      Note(Event.RecordExitCode(saved), now);
    }

    /** stopRecordingExit: the code is in the record before the container can go down, and is taken back
        if it does not. */
    method StopRecordingExit(code: int, luck: Luck, during: seq<Event>, after: seq<Event>) returns (ok: bool)
      requires Follows() && holder.Stopper? && holder.phase.Intended? && !holder.foundExit && holder.code == code
      requires holder.kind.ApiKill? || (holder.kind.ApiStop? && IsLive(life))
      requires forall i :: 0 <= i < |during| ==> LockFree(during[i])
      requires forall i :: 0 <= i < |after| ==> LockFree(after[i])
      modifies this
      ensures Follows() && holder.Stopper?
      ensures old(holder).(phase := holder.phase, foundExit := holder.foundExit, prevExit := holder.prevExit) == holder
      ensures ok ==> holder.phase == Acted(true)
      ensures !ok ==> holder.phase.RestoreIntent? && (luck.codeRestored ==> holder.phase.clean)
    {
      var prev, found := RecordCode(code, luck.codeSaved);
      if !luck.codeSaved {
        return false;
      }
      Others(during);
      ok := luck.stops;
      Note(StopReturns(ok), Step(State(rec, life, holder), StopReturns(ok)).value);
      if !ok && found {
        Others(after);
        RollBackCode(prev, luck.codeRestored);
      }
    }

    method RollBackCode(prev: int, saved: bool)
      requires Follows() && holder.Stopper? && holder.phase.RestoreExit? && holder.prevExit == prev
      modifies this
      ensures Follows() && holder == old(holder).(phase := StopPhase.RestoreIntent(saved))
    {
      ghost var now := Step(State(rec, life, holder), RestoreExitCode(saved)).value;
      if saved && rec.Some? {
        rec := Some(rec.value.(exitCode := prev));
      }
      Note(RestoreExitCode(saved), now);
    }

    /** The rollback at the end of stopWithIntentLocked. */
    method RollBackIntent(prev: bool, found: bool, saved: bool)
      requires Follows() && holder.Stopper? && holder.phase.RestoreIntent? && holder.found == found
      requires holder.hadFlag == (found && prev)
      modifies this
      ensures Follows() && holder.Free?
      ensures !found ==> rec.None?
      ensures saved && old(holder).phase.clean && found && rec.Some? ==>
                rec.value.stoppedByUser == prev && rec.value.exitCode == old(holder).exitAtIntent
    {
      InvRun(start, trace);
      ghost var now := Step(State(rec, life, holder), RestoreStopIntent(saved)).value;
      if saved && found && !prev && rec.Some? {
        rec := Some(rec.value.(stoppedByUser := false));
      }
      Note(RestoreStopIntent(saved), now);
    }

    method Finish(saved: bool)
      requires Follows() && holder.Stopper? && holder.phase == Acted(true) && !holder.kind.ForceRemove?
      modifies this
      ensures Follows() && holder.Free?
      ensures rec.Some? ==> rec.value.stoppedByUser && rec.value.exitCode == old(holder).code
    {
      InvRun(start, trace);
      ghost var now := Step(State(rec, life, holder), FinishStop(saved)).value;
      if saved && rec.Some? {
        rec := Some(rec.value.(finished := true));
      }
      Note(FinishStop(saved), now);
    }

    /** stopContainer and killContainer, with `meanwhile` the events of others between the updates. A
        failure, once its rollback is saved, leaves StoppedByUser and ExitCode as they were, whatever
        the others did; a success leaves the flag set and the signal's code recorded. */
    method Stop(kind: StopKind, code: int, luck: Luck, meanwhile: seq<seq<Event>>) returns (r: Answer)
      requires Follows() && holder.Free? && !kind.ForceRemove? && |meanwhile| == 4
      requires forall i, j :: 0 <= i < 4 && 0 <= j < |meanwhile[i]| ==> LockFree(meanwhile[i][j])
      modifies this
      ensures Follows() && holder.Free?
      ensures r == Conflict ==> kind.ApiKill? && !IsLive(old(life)) && rec == old(rec)
      ensures r == Failed && !luck.intentSaved ==> rec == old(rec)
      ensures r == Failed && luck.intentSaved && luck.codeRestored && luck.intentRestored && rec.Some? ==>
                && old(rec).Some?
                && rec.value.stoppedByUser == old(rec).value.stoppedByUser
                && rec.value.exitCode == old(rec).value.exitCode
      ensures r == Unmodified && rec.Some? ==> old(rec).Some? && rec.value.stoppedByUser
      ensures r == Unmodified && rec.Some? ==> rec.value.exitCode == old(rec).value.exitCode
      ensures r == Stopped && rec.Some? ==> rec.value.stoppedByUser && rec.value.exitCode == code
    {
      if kind.ApiKill? && !IsLive(life) {
        return Conflict;
      }
      Note(BeginStop(kind, code), Step(State(rec, life, holder), BeginStop(kind, code)).value);
      var prev, found := RecordIntent(kind, code, luck.intentSaved);
      if !luck.intentSaved {
        return Failed;
      }
      Others(meanwhile[0]);
      if kind.ApiStop? && !IsLive(life) {
        InvRun(start, trace);
        Note(NotModified, Step(State(rec, life, holder), NotModified).value);
        return Unmodified;
      }
      var ok := StopRecordingExit(code, luck, meanwhile[1], meanwhile[2]);
      Others(meanwhile[3]);
      if ok {
        Finish(luck.finishSaved);
        return Stopped;
      }
      RollBackIntent(prev, found, luck.intentRestored);
      return Failed;
    }

    /** StartContainer by the watcher, and its stamp. */
    method Start(outcome: StartOutcome)
      requires Follows() && holder.WatchStarting?
      modifies this
      ensures Follows() && Undisturbed(old(rec), rec)
      ensures holder == if old(holder).first || outcome.StartFailed? then Free else WatchCounting
    {
      ghost var e := if holder.first then WatchFirstStart(outcome) else WatchRestart(outcome);
      ghost var now := AfterStart(State(rec, life, holder), outcome);
      StartSteps(State(rec, life, holder), outcome);
      if outcome.Started? {
        life := Running;
        if outcome.stamped && rec.Some? {
          rec := Some(rec.value.(started := true, finished := false, exitCode := 0));
        }
      }
      Note(e, now);
    }

    ghost method Decide(snap: Rec)
      requires Follows() && holder == WatchRead(snap)
      requires if snap.started then snap.finished && !snap.autoRemove && ShouldRestart(snap)
               else ShouldStartNeverStarted(snap) && life != Running
      modifies this`holder, this`trace
      ensures Follows() && holder == WatchStarting(snap, !snap.started)
    {
      var e := if snap.started then WatchDecide else WatchDecideFirst;
      Note(e, Step(State(rec, life, holder), e).value);
    }

    method Stay()
      requires Follows() && holder.WatchRead?
      modifies this
      ensures Follows() && holder.Free? && rec == old(rec)
    {
      Note(WatchIdle, Step(State(rec, life, holder), WatchIdle).value);
    }

    /** RemoveContainer: the record goes, unless the removal fails. */
    method Discard(e: Event, removed: bool)
      requires Follows() && holder.WatchRead? && Step(State(rec, life, holder), e) == Some(State(None, life, Free))
      modifies this
      ensures Follows() && holder.Free? && rec == if removed then None else old(rec)
    {
      if !removed {
        Stay();
        return;
      }
      rec := None;
      Note(e, State(None, life, Free));
    }

    /** enforceRestartPolicy, with `gone` that the CT no longer exists and `removed` that a removal works. It
        starts a container only if the record it last read says so; the flag in it is the one the watcher
        found; a restart is counted. */
    method EnforceRestartPolicy(gone: bool, removed: bool, outcome: StartOutcome, noted: bool, counted: bool,
                                meanwhile: seq<seq<Event>>)
      returns (started: bool, ghost read: Option<Rec>)
      requires Follows() && holder.Free? && |meanwhile| == 3
      requires forall i, j :: 0 <= i < 3 && 0 <= j < |meanwhile[i]| ==> LockFree(meanwhile[i][j])
      modifies this
      ensures Follows() && holder.Free?
      ensures started ==> read.Some? && old(rec).Some? && read.value.stoppedByUser == old(rec).value.stoppedByUser
      ensures started && read.value.stoppedByUser ==> read.value.policy.Always?
      ensures started && read.value.policy.OnFailure? && read.value.maxRetry > 0 ==>
                old(rec).value.restarts < read.value.maxRetry
      ensures rec.Some? ==> old(rec).Some? && rec.value.stoppedByUser == old(rec).value.stoppedByUser
      ensures rec.Some? ==>
                rec.value.restarts
                == old(rec).value.restarts + if started && read.value.started && counted then 1 else 0
    {
      started, read := false, rec;
      if rec.None? {
        return;
      }
      var snap := rec.value;
      Note(BeginWatch, Step(State(rec, life, holder), BeginWatch).value);
      if gone {
        Discard(WatchGone, removed);
        return;
      }
      Others(meanwhile[0]);
      if !snap.started {
        started := FirstStart(snap, outcome, meanwhile[1]);
        return;
      }
      if life != Down {
        Stay();
        return;
      }
      if !snap.finished {
        var updated := NoteFinish(snap, noted);
        if updated.None? {
          return;
        }
        snap := updated.value;
        read := updated;
      }
      started := Exited(snap, removed, outcome, counted, meanwhile[1], meanwhile[2]);
    }

    /** A container that was never started is brought up if its policy means it to run. */
    method FirstStart(snap: Rec, outcome: StartOutcome, during: seq<Event>) returns (started: bool)
      requires Follows() && holder == WatchRead(snap) && !snap.started
      requires forall i :: 0 <= i < |during| ==> LockFree(during[i])
      modifies this
      ensures Follows() && holder.Free? && Undisturbed(old(rec), rec)
      ensures started ==> ShouldStartNeverStarted(snap)
    {
      if !ShouldStartNeverStarted(snap) || life == Running {
        Stay();
        return false;
      }
      Decide(snap);
      Others(during);
      Start(outcome);
      return !outcome.StartFailed?;
    }

    /** The first observed exit is stamped. */
    method NoteFinish(snap: Rec, saved: bool) returns (updated: Option<Rec>)
      requires Follows() && holder == WatchRead(snap) && snap.started && !snap.finished
      modifies this
      ensures Follows() && Undisturbed(old(rec), rec)
      ensures updated.None? ==> holder.Free?
      ensures updated.Some? ==> holder == WatchRead(updated.value) && rec == updated
      ensures updated.Some? ==> updated.value.finished && old(rec).Some?
      ensures updated.Some? ==> updated.value.started == old(rec).value.started
    {
      ghost var now := Step(State(rec, life, holder), WatchNoteFinish(saved)).value;
      updated := None;
      if saved && rec.Some? {
        rec := Some(rec.value.(finished := true));
        updated := rec;
      }
      Note(WatchNoteFinish(saved), now);
    }

    /** What is done about an exit: remove, restart and count, or nothing. */
    method Exited(snap: Rec, removed: bool, outcome: StartOutcome, counted: bool, during: seq<Event>, after: seq<Event>)
      returns (started: bool)
      requires Follows() && holder == WatchRead(snap) && snap.started && snap.finished
      requires forall i :: 0 <= i < |during| ==> LockFree(during[i])
      requires forall i :: 0 <= i < |after| ==> LockFree(after[i])
      modifies this
      ensures Follows() && holder.Free?
      ensures started ==> ShouldRestart(snap)
      ensures rec.Some? ==>
                && old(rec).Some?
                && rec.value.stoppedByUser == old(rec).value.stoppedByUser
                && rec.value.restarts == old(rec).value.restarts + if started && counted then 1 else 0
    {
      started := false;
      if snap.autoRemove {
        Discard(WatchAutoRemove, removed);
        return;
      }
      if !ShouldRestart(snap) {
        Stay();
        return;
      }
      Decide(snap);
      Others(during);
      Start(outcome);
      if !outcome.StartFailed? {
        started := true;
        Others(after);
        Count(counted);
      }
    }

    method Count(saved: bool)
      requires Follows() && holder.WatchCounting?
      modifies this
      ensures Follows() && holder.Free? && rec == if saved then AddRestart(old(rec)) else old(rec)
    {
      ghost var now := Step(State(rec, life, holder), CountRestart(saved)).value;
      if saved && rec.Some? {
        rec := Some(rec.value.(restarts := rec.value.restarts + 1));
      }
      Note(CountRestart(saved), now);
    }
  }
}
