/** The health watcher: probe results, the failing streak and the status they lead to. */
module Health {
  import opened Wrappers

  const LOG_CAP := 5
  const DEFAULT_RETRIES := 3

  datatype Status = Unset | Starting | Healthy | Unhealthy

  datatype Life = Running | Paused | Down

  /** One probe; grace says it ended within the start period. */
  datatype Probe = Probe(exitCode: int, output: string, grace: bool)

  datatype State = State(status: Status, streak: nat, log: seq<Probe>)

  datatype Observation = Probed(probe: Probe) | NotRunning

  function Retries(configured: int): (n: nat)
    ensures n > 0 && (configured > 0 ==> n == configured)
  {
    if configured <= 0 then DEFAULT_RETRIES else configured
  }

  /** The results the log holds on to. */
  function Latest(log: seq<Probe>): seq<Probe> {
    if |log| > LOG_CAP then log[|log| - LOG_CAP..] else log
  }

  function Step(s: State, retries: nat, o: Observation): State {
    match o
    case NotRunning => if s.status != Starting then s.(status := Starting, streak := 0) else s
    case Probed(p) =>
      var s := s.(log := Latest(s.log + [p]));
      if p.exitCode == 0 then s.(streak := 0, status := Healthy)
      else if p.grace then s
      else if s.streak + 1 >= retries then s.(streak := s.streak + 1, status := Unhealthy)
      else s.(streak := s.streak + 1)
  }

  function Run(s: State, retries: nat, os: seq<Observation>): State {
    if os == [] then s else Step(Run(s, retries, os[..|os| - 1]), retries, os[|os| - 1])
  }

  // ----- The watcher -----

  class Record {
    const configured: int
    var status: Status
    var streak: nat
    var log: seq<Probe>

    ghost function View(): State
      reads this
    {
      State(status, streak, log)
    }

    constructor (configured: int, status: Status)
      ensures View() == State(status, 0, []) && this.configured == configured
    {
      this.configured, this.status, streak, log := configured, status, 0, [];
    }

    /** One turn of runDueHealthchecks for a container with a health check: a paused one is left alone, one
        that is down is reset, a running one is probed if it is due. A change of status by a probe is told. */
    method Tick(life: Life, due: bool, probe: Probe) returns (told: Option<Status>)
      modifies this
      ensures View() == (if life.Down? then Step(old(View()), Retries(configured), NotRunning)
                         else if life.Running? && due then Step(old(View()), Retries(configured), Probed(probe))
                         else old(View()))
      ensures told == if life.Running? && due && status != old(status) then Some(status) else None
    {
      told := None;
      if life.Paused? {
        return;
      }
      if life.Down? {
        if status != Starting {
          status, streak := Starting, 0;
        }
        return;
      }
      if due {
        told := RunOne(probe);
      }
    }

    method RunOne(probe: Probe) returns (told: Option<Status>)
      modifies this
      ensures View() == Step(old(View()), Retries(configured), Probed(probe))
      ensures told == if status != old(status) then Some(status) else None
    {
      var before := status;
      log := log + [probe];
      if |log| > LOG_CAP {
        log := log[|log| - LOG_CAP..];
      }
      var retries := configured;
      if retries <= 0 {
        retries := DEFAULT_RETRIES;
      }
      if probe.exitCode == 0 {
        streak, status := 0, Healthy;
      } else if !probe.grace {
        streak := streak + 1;
        if streak >= retries {
          status := Unhealthy;
        }
      }
      told := if status != before then Some(status) else None;
    }
  }

  // ----- What a status means -----

  predicate Fresh(s: State) {
    s.status != Unhealthy && s.streak == 0 && s.log == []
  }

  /** Successes, and failures outside the start period. */
  predicate Counts(p: Probe) {
    p.exitCode == 0 || !p.grace
  }

  /** The probes that count since the watcher last reset the record. */
  function Counted(s: State, retries: nat, os: seq<Observation>): seq<Probe> {
    if os == [] then []
    else
      var front, o := os[..|os| - 1], os[|os| - 1];
      if o.Probed? then Counted(s, retries, front) + (if Counts(o.probe) then [o.probe] else [])
      else if Run(s, retries, front).status != Starting then []
      else Counted(s, retries, front)
  }

  /** The last n probes exist and all failed. */
  predicate LastFailed(ps: seq<Probe>, n: nat) {
    n <= |ps| && forall i :: |ps| - n <= i < |ps| ==> ps[i].exitCode != 0
  }

  /** The streak is the number of failures the counted probes end with. */
  lemma {:induction false} StreakIsTail(s: State, retries: nat, os: seq<Observation>, n: nat)
    requires Fresh(s)
    ensures LastFailed(Counted(s, retries, os), n) <==> n <= Run(s, retries, os).streak
    decreases |os|
  {
    if os != [] {
      var front, o := os[..|os| - 1], os[|os| - 1];
      var ps := Counted(s, retries, front);
      StreakIsTail(s, retries, front, n);
      assert ps + [] == ps;
      if o.Probed? && Counts(o.probe) {
        LastFailedAppend(ps, o.probe, n);
        if n > 0 {
          StreakIsTail(s, retries, front, n - 1);
        }
      }
    }
  }

  lemma LastFailedAppend(ps: seq<Probe>, p: Probe, n: nat)
    ensures LastFailed(ps + [p], n) <==> n == 0 || (p.exitCode != 0 && LastFailed(ps, n - 1))
  {
    var qs := ps + [p];
    if n > 0 {
      assert qs[|ps|] == p;
      if LastFailed(qs, n) {
        assert forall i :: |ps| - (n - 1) <= i < |ps| ==> ps[i] == qs[i];
      }
    }
  }

  lemma {:induction false} UnhealthyIsStreak(s: State, retries: nat, os: seq<Observation>)
    requires Fresh(s) && retries > 0
    ensures Run(s, retries, os).status == Unhealthy <==> Run(s, retries, os).streak >= retries
  {
    if os != [] {
      UnhealthyIsStreak(s, retries, os[..|os| - 1]);
    }
  }

  /** Over every run the status is unhealthy exactly when the last counted probes, as many as the
      effective retries, all failed since the last reset. */
  lemma UnhealthyExactly(s: State, configured: int, os: seq<Observation>)
    requires Fresh(s)
    ensures Run(s, Retries(configured), os).status == Unhealthy
            <==> LastFailed(Counted(s, Retries(configured), os), Retries(configured))
  {
    UnhealthyIsStreak(s, Retries(configured), os);
    StreakIsTail(s, Retries(configured), os, Retries(configured));
  }

  function Probes(os: seq<Observation>): seq<Probe> {
    if os == [] then []
    else Probes(os[..|os| - 1]) + if os[|os| - 1].Probed? then [os[|os| - 1].probe] else []
  }

  /** The health log is always the last five results, or all of them. */
  lemma {:induction false} LogIsLast(s: State, retries: nat, os: seq<Observation>)
    requires Fresh(s)
    ensures Run(s, retries, os).log == Latest(Probes(os))
  {
    if os != [] {
      LogIsLast(s, retries, os[..|os| - 1]);
      if os[|os| - 1].Probed? {
        LatestAppend(Probes(os[..|os| - 1]), os[|os| - 1].probe);
      }
    }
  }

  lemma LatestAppend(ps: seq<Probe>, p: Probe)
    ensures Latest(Latest(ps) + [p]) == Latest(ps + [p])
  {
  }

  // ----- A restart may keep the streak -----

  function ThisLife(probes: seq<Probe>): seq<Observation> {
    seq(|probes|, i requires 0 <= i < |probes| => Probed(probes[i]))
  }

  predicate AnySuccess(probes: seq<Probe>) {
    exists i :: 0 <= i < |probes| && probes[i].exitCode == 0
  }

  /** The failures that count since the last success among these probes. */
  function Tail(probes: seq<Probe>): nat {
    if probes == [] then 0
    else
      var p := probes[|probes| - 1];
      if p.exitCode == 0 then 0 else Tail(probes[..|probes| - 1]) + if p.grace then 0 else 1
  }

  lemma SuccessAppend(front: seq<Probe>, p: Probe)
    ensures AnySuccess(front + [p]) <==> AnySuccess(front) || p.exitCode == 0
  {
    var ps := front + [p];
    assert ps[|front|] == p;
    assert forall i :: 0 <= i < |front| ==> front[i] == ps[i];
  }

  lemma RunAppend(s: State, retries: nat, os: seq<Observation>, o: Observation)
    ensures Run(s, retries, os + [o]) == Step(Run(s, retries, os), retries, o)
  {
    assert (os + [o])[..|os|] == os;
  }

  lemma {:induction false} StreakFrom(s: State, retries: nat, os: seq<Observation>, probes: seq<Probe>)
    ensures Run(s, retries, os + ThisLife(probes)).streak
         == Tail(probes) + if AnySuccess(probes) then 0 else Run(s, retries, os).streak
    decreases |probes|
  {
    if probes == [] {
      assert os + ThisLife(probes) == os;
    } else {
      var front, p := probes[..|probes| - 1], probes[|probes| - 1];
      StreakFrom(s, retries, os, front);
      RunAppend(s, retries, os + ThisLife(front), Probed(p));
      assert os + ThisLife(probes) == os + ThisLife(front) + [Probed(p)];
      SuccessAppend(front, p);
      assert probes == front + [p];
    }
  }

  /** A container seen down starts its next life with no failures held against it exactly when its status
      was not "starting" or no failure was counted yet; otherwise, until a probe succeeds, the failures
      of the earlier life are counted with those of the new one. */
  lemma CarriedExactly(s: State, retries: nat, os: seq<Observation>, probes: seq<Probe>)
    ensures var before := Run(s, retries, os);
            Run(s, retries, os + [NotRunning] + ThisLife(probes)).streak == Tail(probes)
            <==> AnySuccess(probes) || before.status != Starting || before.streak == 0
  {
    var seen := os + [NotRunning];
    assert seen[..|seen| - 1] == os;
    StreakFrom(s, retries, seen, probes);
  }

  /** Two failed probes, a restart, and one failed probe make a container unhealthy at three retries. */
  lemma OneFailureAfterRestart(p: Probe)
    requires p.exitCode != 0 && !p.grace
    ensures Run(State(Starting, 0, []), 3, [Probed(p), Probed(p), NotRunning, Probed(p)]).status == Unhealthy
  {
    var s := State(Starting, 0, []);
    var os := [Probed(p), Probed(p), NotRunning, Probed(p)];
    assert os == ThisLife([p, p]) + [NotRunning] + ThisLife([p]);
    assert [] + ThisLife([p, p]) == ThisLife([p, p]);
    StreakFrom(s, 3, [], [p, p]);
    StreakFrom(s, 3, ThisLife([p, p]) + [NotRunning], [p]);
    UnhealthyIsStreak(s, 3, os);
  }
}
