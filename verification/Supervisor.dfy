/** The supervisor of one frp program. Each critical section under the lock of the instance
    is one step; between them the processes end and the timers fire when they please. */
module Supervisor {
  import opened Wrappers
  import opened Powers

  const RESTART_BASE: nat := 2
  const RESTART_MAX: nat := 60

  /** Seconds before the relaunch that follows the f-th close exit. */
  function Delay(f: nat): nat {
    var d := if f == 0 then RESTART_BASE else RESTART_BASE * Pow2(f - 1);
    if d < RESTART_MAX then d else RESTART_MAX
  }

  method RestartDelay(failures: nat) returns (d: nat)
    ensures d == Delay(failures)
  {
    d := RESTART_BASE;
    var i := 1;
    while i < failures && d < RESTART_MAX
      invariant 1 <= i && (if failures > 0 then i <= failures else i == 1)
      invariant d == RESTART_BASE * Pow2(i - 1)
    {
      d := d * 2;
      i := i + 1;
    }
    if failures > 0 {
      Pow2Monotone(i - 1, failures - 1);
    }
    d := if d < RESTART_MAX then d else RESTART_MAX;
  }

  /** The fields of the instance, and what the system holds for it: processes that run, ended
      processes whose exit is not handled yet, timers armed (with their delay), timers whose
      callback waits for the lock. */
  datatype State = State(
    cmd: Option<nat>, wanted: bool, retry: Option<nat>, failures: nat,
    alive: set<nat>, ended: set<nat>, armed: map<nat, nat>, fired: set<nat>,
    launches: nat, timers: nat)

  const INITIAL := State(None, false, None, 0, {}, {}, map[], {}, 0, 0)

  class FrpProc {
    var cmd: Option<nat>
    var wanted: bool
    var retry: Option<nat>
    var failures: nat
    var alive: set<nat>
    var ended: set<nat>
    var armed: map<nat, nat>
    var fired: set<nat>
    var launches: nat
    var timers: nat

    function View(): State
      reads this
    {
      State(cmd, wanted, retry, failures, alive, ended, armed, fired, launches, timers)
    }

    constructor ()
      ensures View() == INITIAL
    {
      cmd, wanted, retry, failures := None, false, None, 0;
      alive, ended, armed, fired, launches, timers := {}, {}, map[], {}, 0, 0;
    }

    /** Starts the program, when it can be started. */
    method LaunchLocked(works: bool) returns (ok: bool)
      modifies this
      ensures ok == works
      ensures View() == if works then Launched(old(View())) else old(View())
    {
      if !works {
        return false;
      }
      cmd := Some(launches);
      alive := alive + {launches};
      launches := launches + 1;
      return true;
    }

    method Arm(delay: nat)
      modifies this
      ensures View() == Armed(old(View()), delay)
    {
      armed := armed[timers := delay];
      retry := Some(timers);
      timers := timers + 1;
    }

    /** Stopping a timer has no effect once its callback has started. */
    method CancelRetry()
      modifies this
      ensures View() == Cancelled(old(View()))
    {
      if retry.Some? {
        armed := armed - {retry.value};
        retry := None;
      }
    }

    method Start(works: bool) returns (ok: bool)
      modifies this
      ensures View() == StartStep(old(View()), works)
      ensures ok <==> old(cmd).Some? || works
    {
      if cmd.Some? {
        wanted := true;
        return true;
      }
      CancelRetry();
      failures := 0;
      ok := LaunchLocked(works);
      if !ok {
        return false;
      }
      wanted := true;
    }

    method Stop()
      modifies this
      ensures View() == StopStep(old(View()))
    {
      wanted := false;
      CancelRetry();
    }

    /** What follows the end of a process; `stable`: it had run for a minute. */
    method OnExit(pid: nat, stable: bool)
      modifies this
      ensures View() == ExitStep(old(View()), pid, stable)
    {
      ended := ended - {pid};
      cmd := None;
      if stable {
        failures := 0;
      }
      if wanted {
        failures := failures + 1;
        var delay := RestartDelay(failures);
        Arm(delay);
      }
    }

    /** Callback of a timer; `configured`: the instance still has a configuration. */
    method Relaunch(timer: nat, configured: bool, works: bool)
      modifies this
      ensures View() == RelaunchStep(old(View()), timer, configured, works)
    {
      fired := fired - {timer};
      retry := None;
      if !wanted || cmd.Some? {
        return;
      }
      if !configured {
        wanted := false;
        return;
      }
      var ok := LaunchLocked(works);
      if !ok {
        failures := failures + 1;
        var delay := RestartDelay(failures);
        Arm(delay);
      }
    }

    /** State shown: running, or a relaunch is expected, or stopped. */
    method Status() returns (active: string)
      ensures active == "active" <==> cmd.Some?
      ensures active == "activating" <==> cmd.None? && wanted
      ensures active == "inactive" <==> cmd.None? && !wanted
    {
      if cmd.Some? {
        return "active";
      } else if wanted {
        return "activating";
      }
      return "inactive";
    }
  }

  // ---- The steps ----

  function Launched(s: State): State {
    s.(cmd := Some(s.launches), alive := s.alive + {s.launches}, launches := s.launches + 1)
  }

  function Armed(s: State, delay: nat): State {
    s.(armed := s.armed[s.timers := delay], retry := Some(s.timers), timers := s.timers + 1)
  }

  function Cancelled(s: State): State {
    if s.retry.Some? then s.(armed := s.armed - {s.retry.value}, retry := None) else s
  }

  function Setback(s: State): State {
    Armed(s.(failures := s.failures + 1), Delay(s.failures + 1))
  }

  function StartStep(s: State, works: bool): State {
    if s.cmd.Some? then s.(wanted := true)
    else
      var c := Cancelled(s).(failures := 0);
      if works then Launched(c).(wanted := true) else c
  }

  function StopStep(s: State): State {
    Cancelled(s.(wanted := false))
  }

  function ExitStep(s: State, pid: nat, stable: bool): State {
    var e := s.(ended := s.ended - {pid}, cmd := None, failures := if stable then 0 else s.failures);
    if s.wanted then Setback(e) else e
  }

  function RelaunchStep(s: State, timer: nat, configured: bool, works: bool): State {
    var c := s.(fired := s.fired - {timer}, retry := None);
    if !s.wanted || s.cmd.Some? then c
    else if !configured then c.(wanted := false)
    else if works then Launched(c)
    else Setback(c)
  }

  /** `Start`, `Stop`, `Exit`, `Relaunch`: critical sections. `End`, `Fire`: the system alone. */
  datatype Event =
    | Start(works: bool)
    | Stop
    | End(pid: nat)
    | Exit(pid: nat, stable: bool)
    | Fire(timer: nat)
    | Relaunch(timer: nat, configured: bool, works: bool)

  predicate Enabled(s: State, e: Event) {
    match e
    case End(pid) => pid in s.alive
    case Exit(pid, _) => pid in s.ended
    case Fire(t) => t in s.armed
    case Relaunch(t, _, _) => t in s.fired
    case _ => true
  }

  function Step(s: State, e: Event): State {
    match e
    case Start(works) => StartStep(s, works)
    case Stop => StopStep(s)
    case End(pid) => s.(alive := s.alive - {pid}, ended := s.ended + {pid})
    case Exit(pid, stable) => ExitStep(s, pid, stable)
    case Fire(t) => s.(armed := s.armed - {t}, fired := s.fired + {t})
    case Relaunch(t, configured, works) => RelaunchStep(s, t, configured, works)
  }

  ghost predicate Possible(s: State, run: seq<Event>)
    decreases run
  {
    run == [] || (Enabled(s, run[0]) && Possible(Step(s, run[0]), run[1..]))
  }

  function After(s: State, run: seq<Event>): State
    decreases run
  {
    if run == [] then s else After(Step(s, run[0]), run[1..])
  }

  // ---- What each step does, field by field ----

  /** The steps that launch the program: a start or a relaunch that works and finds it stopped; for a
      relaunch, still wanted and configured. */
  predicate Launches(s: State, e: Event) {
    || (e.Start? && e.works && s.cmd.None?)
    || (e.Relaunch? && e.works && e.configured && s.wanted && s.cmd.None?)
  }

  /** Which steps change the processes, and how. */
  lemma ProcessFields(s: State, e: Event)
    ensures Step(s, e).launches == if Launches(s, e) then s.launches + 1 else s.launches
    ensures Step(s, e).cmd == if Launches(s, e) then Some(s.launches) else if e.Exit? then None else s.cmd
    ensures Step(s, e).alive == if Launches(s, e) then s.alive + {s.launches}
                                else if e.End? then s.alive - {e.pid} else s.alive
    ensures Step(s, e).ended == if e.End? then s.ended + {e.pid} else if e.Exit? then s.ended - {e.pid} else s.ended
  {
  }

  /** Which steps change what is wanted: a start of a running program or one that works, a stop, and a
      relaunch that finds the program stopped and without a configuration. */
  lemma WantedField(s: State, e: Event)
    ensures Step(s, e).wanted
       <==> if e.Start? then s.wanted || s.cmd.Some? || e.works
            else s.wanted && !e.Stop? && !(e.Relaunch? && !e.configured && s.cmd.None?)
  {
  }

  /** Which steps change the count of close exits and the timers. A setback arms the next timer. */
  lemma TimerFields(s: State, e: Event)
    ensures Step(s, e).failures == (if (e.Start? && s.cmd.None?) || (e.Exit? && e.stable) then 0 else s.failures)
                                   + (if IsSetback(s, e) then 1 else 0)
    ensures Step(s, e).timers == s.timers + (if IsSetback(s, e) then 1 else 0)
    ensures Step(s, e).retry == if IsSetback(s, e) then Some(s.timers)
                                else if e.Stop? || e.Relaunch? || (e.Start? && s.cmd.None?) then None else s.retry
    ensures Step(s, e).fired == if e.Fire? then s.fired + {e.timer} else if e.Relaunch? then s.fired - {e.timer} else s.fired
    ensures Step(s, e).armed.Keys
         == (if e.Fire? then s.armed.Keys - {e.timer}
             else if (e.Stop? || (e.Start? && s.cmd.None?)) && s.retry.Some? then s.armed.Keys - {s.retry.value}
             else s.armed.Keys) + (if IsSetback(s, e) then {s.timers} else {})
    ensures forall t :: t in s.armed && t in Step(s, e).armed && t != s.timers ==> Step(s, e).armed[t] == s.armed[t]
  {
  }

  function CountLaunches(s: State, run: seq<Event>): nat
    decreases run
  {
    if run == [] then 0 else (if Launches(s, run[0]) then 1 else 0) + CountLaunches(Step(s, run[0]), run[1..])
  }

  /** Over every run the program is launched exactly as often as a start or a relaunch that works found
      it stopped, and the process known at the end is the last one launched, unless its end was handled. */
  lemma {:induction false} LaunchesAreCounted(s: State, run: seq<Event>)
    requires s.cmd.Some? ==> s.cmd.value == s.launches - 1
    ensures After(s, run).launches == s.launches + CountLaunches(s, run)
    ensures After(s, run).cmd.Some? ==> After(s, run).cmd.value == After(s, run).launches - 1
    decreases run
  {
    if run != [] {
      ProcessFields(s, run[0]);
      LaunchesAreCounted(Step(s, run[0]), run[1..]);
    }
  }

  // ---- Safety ----

  /** The processes of the instance are the one in `cmd`, or there is none. */
  ghost predicate OneProcess(s: State) {
    s.alive + s.ended == if s.cmd.Some? then {s.cmd.value} else {}
  }

  ghost predicate Inv(s: State) {
    && OneProcess(s)
    && s.alive !! s.ended
    && (forall p :: p in s.alive + s.ended ==> p < s.launches)
    && (forall t :: t in s.armed || t in s.fired ==> t < s.timers)
    && (s.retry.Some? ==> s.retry.value < s.timers)
    && s.armed.Keys !! s.fired
  }

  lemma StepKeepsInv(s: State, e: Event)
    requires Inv(s) && Enabled(s, e)
    ensures Inv(Step(s, e))
  {
  }

  /** In every interleaving, with any number of stale timers, at most one process is there, and
      it is the one the instance knows. */
  lemma {:induction false} AlwaysOneProcess(s: State, run: seq<Event>)
    requires Inv(s) && Possible(s, run)
    ensures Inv(After(s, run))
    ensures OneProcess(After(s, run)) && |After(s, run).alive| <= 1
    decreases run
  {
    if run != [] {
      StepKeepsInv(s, run[0]);
      AlwaysOneProcess(Step(s, run[0]), run[1..]);
    } else if s.alive != {} {
      assert s.alive <= {s.cmd.value};
      assert s.alive == {s.cmd.value};
    }
  }

  lemma EveryRunHasOneProcess(run: seq<Event>)
    requires Possible(INITIAL, run)
    ensures OneProcess(After(INITIAL, run)) && |After(INITIAL, run).alive| <= 1
  {
    AlwaysOneProcess(INITIAL, run);
  }

  ghost predicate NoStart(run: seq<Event>) {
    forall e :: e in run ==> !e.Start?
  }

  lemma {:induction false} UnwantedStaysDown(s: State, run: seq<Event>)
    requires !s.wanted && NoStart(run)
    ensures After(s, run).launches == s.launches && !After(s, run).wanted
    decreases run
  {
    if run != [] {
      assert run[0] in run;
      UnwantedStaysDown(Step(s, run[0]), run[1..]);
    }
  }

  /** After a stop, whatever timers are still around, nothing is launched before a start. */
  lemma NoLaunchAfterStop(s: State, run: seq<Event>)
    requires NoStart(run)
    ensures After(Step(s, Stop), run).launches == s.launches
  {
    UnwantedStaysDown(Step(s, Stop), run);
  }

  // ---- Progress ----

  /** Timers armed or about to call back. */
  function Outstanding(s: State): set<nat> {
    s.armed.Keys + s.fired
  }

  /** An instance that should run does, or some relaunch is coming. */
  ghost predicate Progress(s: State) {
    s.wanted && s.cmd.None? ==> Outstanding(s) != {}
  }

  /** Progress is worth its name: from a wanted instance that is stopped, a timer that comes up and a
      relaunch that works bring the program back, as a process of its own, with the count of close exits
      as it was. */
  lemma ProgressRecovers(s: State) returns (run: seq<Event>)
    requires Inv(s) && Progress(s) && s.wanted && s.cmd.None?
    ensures Possible(s, run) && 1 <= |run| <= 2
    ensures forall e :: e in run ==> e.Fire? || (e.Relaunch? && e.configured && e.works)
    ensures var n := After(s, run);
            n.cmd == Some(s.launches) && n.alive == {s.launches} && n.wanted && n.failures == s.failures
  {
    var t :| t in Outstanding(s);
    var back := Relaunch(t, true, true);
    if t in s.fired {
      run := [back];
      OneMore(s, back, []);
    } else {
      run := [Fire(t), back];
      OneMore(s, Fire(t), [back]);
      OneMore(Step(s, Fire(t)), back, []);
    }
  }

  lemma OneMore(s: State, e: Event, run: seq<Event>)
    ensures After(s, [e] + run) == After(Step(s, e), run)
    ensures Possible(s, [e] + run) <==> Enabled(s, e) && Possible(Step(s, e), run)
  {
    assert ([e] + run)[1..] == run;
  }

  /** A start that gives up the only relaunch and then fails to launch. */
  predicate LosesRelaunch(s: State, e: Event) {
    && e.Start? && !e.works
    && s.wanted && s.cmd.None?
    && s.fired == {}
    && s.retry.Some? && s.armed.Keys == {s.retry.value}
  }

  /** Exactly one kind of step leaves a wanted instance without a coming relaunch. */
  lemma StepKeepsProgress(s: State, e: Event)
    requires Inv(s) && Progress(s) && Enabled(s, e)
    ensures Progress(Step(s, e)) <==> !LosesRelaunch(s, e)
  {
    var n := Step(s, e);
    match e {
      case Start(works) =>
        if s.cmd.None? && !works && s.wanted {
          assert Outstanding(n) == Outstanding(s) - (if s.retry.Some? && s.retry.value in s.armed then {s.retry.value} else {});
          if Outstanding(n) == {} {
            var t :| t in Outstanding(s);
          }
        }
      case Stop =>
      case End(pid) =>
      case Exit(pid, stable) =>
        assert s.wanted ==> s.timers in n.armed.Keys;
      case Fire(t) =>
        assert t in n.fired;
      case Relaunch(t, configured, works) =>
        assert s.wanted && s.cmd.None? && configured && !works ==> s.timers in n.armed.Keys;
        assert s.cmd.Some? ==> n.cmd == s.cmd;
    }
  }

  ghost predicate NoFailedStartWhileWanted(s: State, run: seq<Event>)
    decreases run
  {
    run == [] || (!(run[0].Start? && !run[0].works && s.cmd.None? && s.wanted)
                  && NoFailedStartWhileWanted(Step(s, run[0]), run[1..]))
  }

  lemma {:induction false} RunsKeepProgress(s: State, run: seq<Event>)
    requires Inv(s) && Progress(s) && Possible(s, run) && NoFailedStartWhileWanted(s, run)
    ensures Progress(After(s, run))
    decreases run
  {
    if run != [] {
      StepKeepsInv(s, run[0]);
      StepKeepsProgress(s, run[0]);
      RunsKeepProgress(Step(s, run[0]), run[1..]);
    }
  }

  /** The run that shows the loss: crash, then a manual start while the program is missing. */
  lemma FailedStartStrands() returns (run: seq<Event>)
    ensures Possible(INITIAL, run) && |run| == 4
    ensures !Progress(After(INITIAL, run))
  {
    run := [Start(true), End(0), Exit(0, false), Start(false)];
    var a := Step(INITIAL, run[0]);
    var b := Step(a, run[1]);
    var c := Step(b, run[2]);
    var d := Step(c, run[3]);
    assert run[1..] == [End(0), Exit(0, false), Start(false)];
    assert run[1..][1..] == [Exit(0, false), Start(false)];
    assert run[1..][1..][1..] == [Start(false)];
    assert run[1..][1..][1..][1..] == [];
    assert After(INITIAL, run) == After(a, run[1..]) == After(b, run[1..][1..]) == After(c, run[1..][1..][1..]) == d;
    assert c.armed.Keys == {0};
    assert d.armed.Keys == {};
  }

  // ---- Delays ----

  /** A step after which a relaunch is put off: a wanted program ended, or could not be launched. */
  predicate IsSetback(s: State, e: Event) {
    || (e.Exit? && s.wanted)
    || (e.Relaunch? && s.wanted && s.cmd.None? && e.configured && !e.works)
  }

  /** A step that forgets the past: a start of a stopped program, or the end of a stable one. */
  predicate Forgets(s: State, e: Event) {
    (e.Start? && s.cmd.None?) || (e.Exit? && e.stable)
  }

  function Setbacks(s: State, run: seq<Event>): nat
    decreases run
  {
    if run == [] then 0
    else (if IsSetback(s, run[0]) then 1 else 0) + Setbacks(Step(s, run[0]), run[1..])
  }

  ghost predicate NeverForgets(s: State, run: seq<Event>)
    decreases run
  {
    run == [] || (!Forgets(s, run[0]) && NeverForgets(Step(s, run[0]), run[1..]))
  }

  lemma {:induction false} FailuresCountSetbacks(s: State, run: seq<Event>)
    requires NeverForgets(s, run)
    ensures After(s, run).failures == s.failures + Setbacks(s, run)
    decreases run
  {
    if run != [] {
      FailuresCountSetbacks(Step(s, run[0]), run[1..]);
    }
  }

  /** Setbacks since a step that forgets, that step included: the end of a stable program that is still
      wanted is the first of them. */
  function SetbacksSince(s: State, e: Event, run: seq<Event>): nat {
    (if IsSetback(s, e) then 1 else 0) + Setbacks(Step(s, e), run)
  }

  /** After f - 1 setbacks in a row since the last step that forgets, whichever it was, the next one arms
      a timer of min(2 * 2^(f-1), 60) seconds, and that timer is the one a stop will cancel. The end of
      a stable program, if it is one, arms a timer of 2 seconds. */
  lemma DelayGrows(s: State, e0: Event, run: seq<Event>, e: Event)
    requires Forgets(s, e0) && NeverForgets(Step(s, e0), run)
    requires var t := After(Step(s, e0), run); IsSetback(t, e) && !Forgets(t, e)
    ensures var t := After(Step(s, e0), run);
            var f := SetbacksSince(s, e0, run) + 1;
            && Step(t, e).retry == Some(t.timers)
            && t.timers in Step(t, e).armed
            && Step(t, e).armed[t.timers] == (if 2 * Pow2(f - 1) < 60 then 2 * Pow2(f - 1) else 60)
    ensures IsSetback(s, e0) ==> Step(s, e0).retry == Some(s.timers) && s.timers in Step(s, e0).armed && Step(s, e0).armed[s.timers] == 2
  {
    FailuresCountSetbacks(Step(s, e0), run);
  }
}
