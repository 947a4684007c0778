/** Which states the round trip reaches, how long it runs, and exactly when it stalls. */
module RoundtripProgress {
  import opened Words
  import opened Roundtrip
  import opened RoundtripSafety

  ghost predicate Reachable(s: State) {
    exists schedule :: Exec(schedule).Some? && Exec(schedule).value.state == s
  }

  lemma Advance(s: State, a: Action) returns (t: State)
    requires Reachable(s) && Enabled(s, a)
    ensures t == Step(s, a).next && Reachable(t)
  {
    t := Step(s, a).next;
    var schedule :| Exec(schedule).Some? && Exec(schedule).value.state == s;
    assert (schedule + [a])[..|schedule|] == schedule;
    hide Step;
    assert Exec(schedule + [a]).value.state == t;
  }

  lemma ReachableInit()
    ensures Reachable(INIT)
  {
    assert Exec([]).value.state == INIT;
  }

  /** A state with both registrations made. */
  function Live(main: Main, bridge: Bridge, watchdog: Watchdog, counter: nat, completions: nat, cancels: nat,
                halted: bool, pending: bool, debug: string): State {
    State(main, bridge, watchdog, Link(counter, completions, cancels, true, true), Guest(halted, pending, debug))
  }

  lemma RunningIsReachable() returns (s: State)
    ensures Reachable(s) && s == Live(Running(Armed), Polling, Waiting, 0, 0, 0, false, false, "R")
  {
    ReachableInit();
    hide Reachable; hide StepBridge; hide StepWatchdog;
    s := Advance(INIT, MainStep(true)); s := Advance(s, MainStep(true)); s := Advance(s, MainStep(true));
    s := Advance(s, MainStep(true));
  }

  lemma ArmedIsReachable() returns (s: State)
    ensures Reachable(s) && s == Live(AwaitBridge, Polling, Waiting, 1, 0, 0, false, false, "RA")
  {
    s := RunningIsReachable();
    hide Reachable; hide StepBridge; hide StepWatchdog;
    s := Advance(s, Ring); s := Advance(s, MainStep(true)); s := Advance(s, MainStep(true));
    assert "R" + ['A'] == "RA";
  }

  lemma BridgedIsReachable() returns (s: State)
    ensures Reachable(s) && s == Live(AwaitBridge, Sent(1), Waiting, 0, 1, 0, false, true, "RA")
  {
    s := ArmedIsReachable();
    hide Reachable; hide StepMain; hide StepWatchdog;
    s := Advance(s, BridgeStep(true)); s := Advance(s, BridgeStep(true)); s := Advance(s, BridgeStep(true));
    s := Advance(s, BridgeStep(true)); s := Advance(s, BridgeStep(true));
  }

  /** The guest halts, and wakes up for the interrupt the bridge signalled. */
  lemma InterruptedIsReachable() returns (s: State)
    ensures Reachable(s) && s == Live(Running(Handler), Sent(1), Waiting, 0, 0, 0, false, false, "RA")
  {
    s := BridgedIsReachable();
    hide Reachable; hide StepBridge; hide StepWatchdog;
    s := Advance(s, MainStep(true)); s := Advance(s, Halt); s := Advance(s, Take);
  }

  lemma WokenIsReachable() returns (s: State)
    ensures Reachable(s) && s == Live(Running(Done), Sent(1), Waiting, 0, 0, 0, false, false, "RATW")
  {
    s := InterruptedIsReachable();
    hide Reachable; hide StepBridge; hide StepWatchdog;
    s := Advance(s, MainStep(true)); s := Advance(s, MainStep(true));
    assert "RA" + ['T'] == "RAT" && "RAT" + ['W'] == "RATW";
  }

  lemma ProvedIsReachable() returns (s: State)
    ensures Reachable(s) && s == Live(JoinBridge(true), Sent(1), Waiting, 0, 0, 1, false, false, "RATWD")
  {
    s := WokenIsReachable();
    hide Reachable; hide StepBridge; hide StepWatchdog;
    s := Advance(s, MainStep(true)); s := Advance(s, MainStep(true)); s := Advance(s, MainStep(true));
    assert "RATW" + ['D'] == "RATWD";
  }

  lemma EndedIsReachable() returns (s: State)
    ensures Reachable(s)
    ensures s == Live(JoinBridge(true), BridgeDone(Finished(1)), WatchdogDone(Finished(false)), 0, 0, 0,
                      false, false, "RATWD")
  {
    s := ProvedIsReachable();
    hide Reachable; hide StepMain;
    s := Advance(s, BridgeStep(true));
    s := Advance(s, WatchdogStep(true));
  }

  lemma JoinedIsReachable() returns (s: State)
    ensures Reachable(s)
    ensures s == Live(DeassignIoeventfd(true), BridgeDone(Finished(1)), WatchdogDone(Finished(false)), 0, 0, 0,
                      false, false, "RATWD")
  {
    s := EndedIsReachable();
    hide Reachable; hide StepBridge; hide StepWatchdog;
    s := Advance(s, MainStep(true));
    s := Advance(s, MainStep(true));
  }

  /** When nothing fails, one ring is enough: success is within reach. */
  lemma SuccessIsReachable() returns (s: State)
    ensures Reachable(s) && s.main == Returned(Ok(1))
  {
    s := JoinedIsReachable();
    hide Reachable; hide StepBridge; hide StepWatchdog;
    s := Advance(s, MainStep(true)); s := Advance(s, MainStep(true)); s := Advance(s, MainStep(true));
  }

  // ---------------------------------------------------------------- termination

  function MainRank(main: Main): nat {
    match main
    case AssignIrqfd => 17 case AssignIoeventfd => 16 case CleanupIrqfd => 1 case SpawnBridge => 15
    case SpawnWatchdog => 14
    case Running(stage) => (match stage case Armed => 13 case Handler => 10 case Woke => 9 case Done => 8)
    case CheckFlags(stage) => if stage == Armed then 12 else 7
    case AwaitBridge => 11 case SendCancel(_) => 6 case JoinBridge(_) => 5 case JoinWatchdog(_) => 4
    case DeassignIoeventfd(_) => 3 case DeassignIrqfd(_, _) => 2 case Decide(_, _, _) => 1 case Returned(_) => 0
  }

  function WorkerRank(s: State): nat {
    (match s.bridge
     case BridgeUnborn => 7 case Polling => 6 case Reading => 5 case CheckCount(_) => 4 case Signalling(_) => 3
     case Sending(_) => 2 case Sent(_) => 1 case BridgeDone(_) => 0)
    + (match s.watchdog
       case WatchdogUnborn => 4 case Waiting => 3 case PulsingHigh => 2 case PulsingLow => 1 case WatchdogDone(_) => 0)
  }

  function Rank(s: State): nat {
    MainRank(s.main) + WorkerRank(s)
  }

  lemma MainRankFalls(s: State, ok: bool)
    requires Enabled(s, MainStep(ok))
    ensures MainRank(StepMain(s, ok).next.main) < MainRank(s.main)
  {
  }

  predicate OfGuest(a: Action) {
    a.Ring? || a.Halt? || a.Take?
  }

  /** Every step of a thread lowers the rank; the guest leaves it alone. */
  lemma RankFalls(s: State, a: Action)
    requires LifetimesOk(s) && Enabled(s, a)
    ensures if OfGuest(a) then Rank(Step(s, a).next) == Rank(s) else Rank(Step(s, a).next) < Rank(s)
  {
    if a.MainStep? {
      MainRankFalls(s, a.ok);
      MainFrame(s, a.ok);
      hide StepMain; hide MainRank;
    }
  }

  function ThreadSteps(schedule: seq<Action>): nat {
    if schedule == [] then 0
    else ThreadSteps(schedule[..|schedule| - 1]) + if OfGuest(schedule[|schedule| - 1]) then 0 else 1
  }

  /** No schedule, whatever the guest does in it, holds more than 28 thread steps. */
  lemma {:induction false} BoundedSteps(schedule: seq<Action>)
    requires Exec(schedule).Some?
    ensures ThreadSteps(schedule) + Rank(Exec(schedule).value.state) <= 28
  {
    if schedule != [] {
      var earlier := schedule[..|schedule| - 1];
      BoundedSteps(earlier);
      ReachableInv(earlier);
      hide Rank; hide Step; hide Enabled;
      RankFalls(Exec(earlier).value.state, schedule[|schedule| - 1]);
    }
  }

  // ---------------------------------------------------------------- stalls

  /** The vCPU is blocked in a halted guest that nothing will wake. */
  predicate Stalled(s: State) {
    s.main.Running? && s.guest.halted && !s.guest.pending && s.bridge.BridgeDone? && s.watchdog.WatchdogDone?
  }

  lemma SomeoneCanStep(s: State)
    requires LifetimesOk(s) && !s.main.Returned? && !Stalled(s)
    ensures || Enabled(s, MainStep(false)) || Enabled(s, BridgeStep(false)) || Enabled(s, WatchdogStep(false))
            || Enabled(s, Take)
  {
  }

  lemma StalledIsStuck(s: State, a: Action)
    requires Stalled(s)
    ensures !Enabled(s, a)
  {
  }

  /** Until the main thread returns, no thread and not the guest can move if and only if the run is
      stalled: every other wait ends. */
  lemma StallsExactly(schedule: seq<Action>)
    requires Exec(schedule).Some? && !Exec(schedule).value.state.main.Returned?
    ensures var s := Exec(schedule).value.state;
            (forall a :: !Enabled(s, a)) <==> Stalled(s)
  {
    ReachableInv(schedule);
    hide Exec; hide Enabled; hide LifetimesOk; hide BridgeInv; hide LogInv; hide HaltInv; hide Stalled;
    var s := Exec(schedule).value.state;
    if Stalled(s) {
      forall a ensures !Enabled(s, a) { StalledIsStuck(s, a); }
    } else {
      SomeoneCanStep(s);
    }
  }

  ghost predicate RaisedNothing(log: seq<Event>) {
    Times(log, Signalled) == 0 && Times(log, Pulsed) == 0
  }

  lemma WhyStalled(s: State, taken: seq<nat>, signals: nat, pulses: nat, takes: nat, again: bool)
    requires Stalled(s) && BridgeOk(s.bridge, taken, signals) && WatchdogOk(s.watchdog, pulses) && CancelOk(s)
    requires PendingOk(s.guest.pending, signals + pulses, takes) && HaltOk(s, takes, again) && !again
    ensures signals == 0 && pulses == 0 && !s.bridge.end.Finished? && !s.watchdog.fired.Finished?
  {
  }

  /** A run stalls only if neither the bridge nor the watchdog ever raised the interrupt, each
      having panicked or failed first; or if the guest halted again after taking one. */
  lemma StallsOnlyUnserved(schedule: seq<Action>)
    requires Exec(schedule).Some? && Stalled(Exec(schedule).value.state)
    ensures var Run(s, log) := Exec(schedule).value;
            || HaltsAgain(log)
            || (RaisedNothing(log) && !s.bridge.end.Finished? && !s.watchdog.fired.Finished?)
  {
    ReachableInv(schedule);
    hide Exec; hide Stalled; hide MainInv; hide LogInv; hide BridgeOk; hide WatchdogOk; hide HandoverOk;
    hide PendingOk; hide HaltOk; hide CancelOk; hide HaltsAgain; hide Times; hide Reads;
    var Run(s, log) := Exec(schedule).value;
    if !HaltsAgain(log) {
      WhyStalled(s, Reads(log), Times(log, Signalled), Times(log, Pulsed), Times(log, Took), false);
    }
    assert s.bridge.BridgeDone? && s.watchdog.WatchdogDone? by { StalledEnds(s); }
  }

  lemma StalledEnds(s: State)
    requires Stalled(s)
    ensures s.bridge.BridgeDone? && s.watchdog.WatchdogDone?
  {
  }

  /** What the watchdog is for: unless it panics or fails, no run stalls with a guest that does not
      halt again once interrupted. Even a watchdog that fails after raising the line is enough. */
  lemma WatchdogPreventsStalls(schedule: seq<Action>)
    requires Exec(schedule).Some?
    requires var Run(s, log) := Exec(schedule).value;
             && !HaltsAgain(log)
             && (s.watchdog.WatchdogDone? ==> s.watchdog.fired.Finished? || Times(log, Pulsed) > 0)
    ensures !Stalled(Exec(schedule).value.state)
  {
    if Stalled(Exec(schedule).value.state) {
      StallsOnlyUnserved(schedule);
    }
  }

  /** Neither condition can go: a run stalls when the bridge times out and the watchdog panics, */
  lemma StallWithoutWatchdog() returns (s: State)
    ensures Reachable(s) && Stalled(s) && s.watchdog == WatchdogDone(Panicked)
  {
    s := RunningIsReachable();
    hide Reachable; hide StepMain;
    s := Advance(s, Halt); s := Advance(s, BridgeStep(false)); s := Advance(s, WatchdogPanic);
  }

  /** and when the guest takes the watchdog's interrupt and halts again. */
  lemma StallAfterRescue() returns (s: State)
    ensures Reachable(s) && Stalled(s) && s.watchdog == WatchdogDone(Finished(true))
  {
    s := RunningIsReachable();
    hide Reachable; hide StepMain;
    s := Advance(s, Halt); s := Advance(s, BridgeStep(false));
    s := Advance(s, WatchdogStep(false)); s := Advance(s, WatchdogStep(true)); s := Advance(s, WatchdogStep(true));
    s := Advance(s, Take); s := Advance(s, Halt);
  }
}
