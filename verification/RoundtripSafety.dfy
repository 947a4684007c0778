/** What every run of the round trip keeps, and what its return guarantees. */
module RoundtripSafety {
  import opened Words
  import opened Roundtrip

  // ---------------------------------------------------------------- frames

  /** Events of the main thread; all others are the workers' or the guest's. */
  predicate OfMain(e: Event) {
    e.AssignedIrqfd? || e.AssignedIoeventfd? || e.Entered? || e.TriedIoeventfd? || e.TriedIrqfd?
  }

  /** The workers and the guest leave the main thread's state alone. */
  lemma WorkerFrame(s: State, a: Action)
    requires Enabled(s, a) && !a.MainStep?
    ensures var move := Step(s, a);
            && move.next.main == s.main
            && move.next.link.irqfd == s.link.irqfd && move.next.link.ioeventfd == s.link.ioeventfd
            && move.next.guest.debug == s.guest.debug
            && (move.Logged? ==> !OfMain(move.event))
            && (s.bridge.BridgeUnborn? <==> move.next.bridge.BridgeUnborn?)
            && (s.watchdog.WatchdogUnborn? <==> move.next.watchdog.WatchdogUnborn?)
            && (s.bridge.BridgeDone? ==> move.next.bridge == s.bridge)
            && (s.watchdog.WatchdogDone? ==> move.next.watchdog == s.watchdog)
  {
  }

  /** The main thread touches the workers only to start them. */
  lemma MainFrame(s: State, ok: bool)
    requires Enabled(s, MainStep(ok))
    ensures var move := StepMain(s, ok);
            && (move.Logged? ==> OfMain(move.event))
            && move.next.link.counter == s.link.counter && move.next.link.completions <= s.link.completions
            && move.next.bridge == (if s.main.SpawnBridge? then Polling else s.bridge)
            && move.next.watchdog == (if s.main.SpawnWatchdog? then Waiting else s.watchdog)
  {
  }

  // ---------------------------------------------------------------- registrations

  /** Which registrations have been made, which removals tried, and what the kernel still holds. */
  ghost predicate RegistrationsOk(main: Main, irqfd: bool, ioeventfd: bool, l: Ledger) {
    match main
    case AssignIrqfd => l == Ledger(0, 0, 0, 0, 0, 0) && !irqfd && !ioeventfd
    case AssignIoeventfd => l == Ledger(1, 0, 0, 0, 0, 0) && irqfd && !ioeventfd
    case CleanupIrqfd => l == Ledger(1, 0, 0, 0, 0, 0) && irqfd && !ioeventfd
    case DeassignIrqfd(_, removed) =>
      && l == (if removed then Ledger(1, 1, 0, 1, 0, 0) else Ledger(1, 1, 0, 0, 0, 1))
      && irqfd && ioeventfd == !removed
    case Decide(_, ioeventfdRemoved, irqfdRemoved) =>
      && l == Ledger(1, 1, if irqfdRemoved then 1 else 0, if ioeventfdRemoved then 1 else 0,
                     if irqfdRemoved then 0 else 1, if ioeventfdRemoved then 0 else 1)
      && irqfd == !irqfdRemoved && ioeventfd == !ioeventfdRemoved
    case Returned(result) =>
      && l.irqfds <= 1 && l.ioeventfds <= l.irqfds
      && l.irqfdsRemoved + l.irqfdsStuck == l.irqfds && l.ioeventfdsRemoved + l.ioeventfdsStuck == l.ioeventfds
      && irqfd == (l.irqfdsStuck == 1) && ioeventfd == (l.ioeventfdsStuck == 1)
      && (result.Ok? ==> l == Ledger(1, 1, 1, 1, 0, 0))
      && NamesOutcome(result, l)
    case _ => l == Ledger(1, 1, 0, 0, 0, 0) && irqfd && ioeventfd
  }

  /** The five errors about registrations, each returned exactly for what happened to them. */
  ghost predicate NamesOutcome(result: Result<nat, Failure>, l: Ledger) {
    && (result == Err(AssignIrqfdFailed) <==> l.irqfds == 0)
    && (result == Err(AssignIoeventfdFailed) <==> l.ioeventfds == 0 && l.irqfdsRemoved == 1)
    && (result == Err(CleanupIrqfdFailed) <==> l.ioeventfds == 0 && l.irqfdsStuck == 1)
    && (result == Err(DeassignIoeventfdFailed) <==> l.ioeventfdsStuck == 1)
    && (result == Err(DeassignIrqfdFailed) <==> l.ioeventfdsRemoved == 1 && l.irqfdsStuck == 1)
  }

  lemma MainKeepsRegistrations(s: State, l: Ledger, ok: bool)
    requires RegistrationsOk(s.main, s.link.irqfd, s.link.ioeventfd, l) && Enabled(s, MainStep(ok))
    ensures var t := StepMain(s, ok).next;
            RegistrationsOk(t.main, t.link.irqfd, t.link.ioeventfd, Book(l, StepMain(s, ok)))
  {
    hide Verdict;
    if s.main.Decide? { VerdictTells(s, s.main.executed, s.main.ioeventfdRemoved, s.main.irqfdRemoved); }
  }

  lemma StepKeepsRegistrations(s: State, l: Ledger, a: Action)
    requires RegistrationsOk(s.main, s.link.irqfd, s.link.ioeventfd, l) && Enabled(s, a)
    ensures var t := Step(s, a).next;
            RegistrationsOk(t.main, t.link.irqfd, t.link.ioeventfd, Book(l, Step(s, a)))
  {
    hide RegistrationsOk;
    if a.MainStep? {
      MainKeepsRegistrations(s, l, a.ok);
    } else {
      WorkerFrame(s, a);
      hide Step;
    }
  }

  // ---------------------------------------------------------------- lifetimes

  /** The main thread outlives both workers: they are born after it registers and have ended
      before it cleans up. */
  ghost predicate LifetimesOk(s: State) {
    var unborn := s.bridge.BridgeUnborn? && s.watchdog.WatchdogUnborn?;
    var ended := s.bridge.BridgeDone? && s.watchdog.WatchdogDone?;
    match s.main
    case AssignIrqfd => unborn
    case AssignIoeventfd => unborn
    case CleanupIrqfd => unborn
    case SpawnBridge => unborn
    case SpawnWatchdog => !s.bridge.BridgeUnborn? && s.watchdog.WatchdogUnborn?
    case JoinWatchdog(_) => s.bridge.BridgeDone? && !s.watchdog.WatchdogUnborn?
    case DeassignIoeventfd(_) => ended
    case DeassignIrqfd(_, _) => ended
    case Decide(_, _, _) => ended
    case Returned(result) =>
      && (unborn || ended)
      && (result.Ok? ==> s.bridge == BridgeDone(Finished(result.value)) && s.watchdog == WatchdogDone(Finished(false)))
    case _ => !s.bridge.BridgeUnborn? && !s.watchdog.WatchdogUnborn?
  }

  lemma StepKeepsLifetimes(s: State, a: Action)
    requires LifetimesOk(s) && Enabled(s, a)
    ensures LifetimesOk(Step(s, a).next)
  {
    if !a.MainStep? {
      WorkerFrame(s, a);
      hide Step;
    }
  }

  /** A worker has ended exactly when the log says so. */
  ghost predicate EndsOk(s: State, bridgeEnds: nat, watchdogEnds: nat) {
    (s.bridge.BridgeDone? <==> bridgeEnds > 0) && (s.watchdog.WatchdogDone? <==> watchdogEnds > 0)
  }

  ghost function Bump(count: nat, move: Move, e: Event): nat {
    count + if move.Logged? && move.event == e then 1 else 0
  }

  lemma StepKeepsEnds(s: State, bridgeEnds: nat, watchdogEnds: nat, a: Action)
    requires EndsOk(s, bridgeEnds, watchdogEnds) && LifetimesOk(s) && Enabled(s, a)
    ensures var move := Step(s, a);
            EndsOk(move.next, Bump(bridgeEnds, move, BridgeEnded), Bump(watchdogEnds, move, WatchdogEnded))
  {
    if a.MainStep? {
      MainFrame(s, a.ok);
      hide StepMain;
    }
  }

  // ---------------------------------------------------------------- the bridge's hand-over

  ghost predicate BridgeOk(bridge: Bridge, taken: seq<nat>, signals: nat) {
    match bridge
    case CheckCount(count) => taken == [count] && signals == 0
    case Signalling(count) => count == 1 && taken == [1] && signals == 0
    case Sending(count) => count == 1 && taken == [1] && signals == 1
    case Sent(count) => count == 1 && taken == [1] && signals == 1
    case BridgeDone(end) => end.Finished? ==> end.value == 1 && taken == [1] && signals == 1
    case _ => taken == [] && signals == 0
  }

  ghost function ReadsWith(taken: seq<nat>, move: Move): seq<nat> {
    taken + if move.Logged? && move.event.Consumed? then [move.event.count] else []
  }

  lemma StepKeepsBridge(s: State, taken: seq<nat>, signals: nat, a: Action)
    requires BridgeOk(s.bridge, taken, signals) && LifetimesOk(s) && Enabled(s, a)
    ensures BridgeOk(Step(s, a).next.bridge, ReadsWith(taken, Step(s, a)), Bump(signals, Step(s, a), Signalled))
  {
    if a.MainStep? {
      MainFrame(s, a.ok);
      hide StepMain;
    }
  }

  /** The main thread got past its wait for the bridge. */
  ghost predicate Confirmed(main: Main) {
    || ((main.Running? || main.CheckFlags?) && main.stage != Armed)
    || ((main.SendCancel? || main.JoinBridge? || main.JoinWatchdog? || main.DeassignIoeventfd?
         || main.DeassignIrqfd? || main.Decide?) && main.executed)
    || (main.Returned? && main.result.Ok?)
  }

  ghost predicate HandoverOk(s: State, signals: nat) {
    s.link.completions > 0 || Confirmed(s.main) ==> signals > 0
  }

  lemma StepKeepsHandover(s: State, taken: seq<nat>, signals: nat, a: Action)
    requires HandoverOk(s, signals) && BridgeOk(s.bridge, taken, signals) && Enabled(s, a)
    ensures HandoverOk(Step(s, a).next, Bump(signals, Step(s, a), Signalled))
  {
    if !a.MainStep? { WorkerFrame(s, a); }
  }

  // ---------------------------------------------------------------- watchdog and guest

  ghost predicate WatchdogOk(watchdog: Watchdog, pulses: nat) {
    match watchdog
    case PulsingLow => pulses == 1
    case WatchdogDone(fired) => pulses <= 1 && (fired.Finished? ==> pulses == if fired.value then 1 else 0)
    case _ => pulses == 0
  }

  lemma StepKeepsWatchdog(s: State, pulses: nat, a: Action)
    requires WatchdogOk(s.watchdog, pulses) && LifetimesOk(s) && Enabled(s, a)
    ensures WatchdogOk(Step(s, a).next.watchdog, Bump(pulses, Step(s, a), Pulsed))
  {
    if a.MainStep? {
      MainFrame(s, a.ok);
      hide StepMain;
    }
  }

  /** What the guest has printed, and how often it was entered for the handler. */
  ghost predicate GuestOk(main: Main, debug: string, entries: nat) {
    match main
    case Running(stage) =>
      (match stage
       case Armed => debug == "R" && entries == 0
       case Handler => debug == "RA" && entries == 1
       case Woke => debug == "RAT" && entries == 1
       case Done => debug == "RATW" && entries == 1)
    case CheckFlags(stage) =>
      (stage == Armed && debug == "RA" && entries == 0) || (stage == Done && debug == "RATWD" && entries == 1)
    case AwaitBridge => debug == "RA" && entries == 0
    case SendCancel(executed) => executed ==> debug == "RATWD" && entries == 1
    case JoinBridge(executed) => executed ==> debug == "RATWD" && entries == 1
    case JoinWatchdog(executed) => executed ==> debug == "RATWD" && entries == 1
    case DeassignIoeventfd(executed) => executed ==> debug == "RATWD" && entries == 1
    case DeassignIrqfd(executed, _) => executed ==> debug == "RATWD" && entries == 1
    case Decide(executed, _, _) => executed ==> debug == "RATWD" && entries == 1
    case Returned(result) => result != Err(ProofMismatch) && (result.Ok? ==> debug == "RATWD" && entries == 1)
    case _ => debug == "R" && entries == 0
  }

  lemma MainKeepsGuest(s: State, entries: nat, ok: bool)
    requires GuestOk(s.main, s.guest.debug, entries) && Enabled(s, MainStep(ok))
    ensures var t := StepMain(s, ok).next;
            GuestOk(t.main, t.guest.debug, Bump(entries, StepMain(s, ok), Entered(Handler)))
  {
    assert "R" + ['A'] == "RA" && "RA" + ['T'] == "RAT" && "RAT" + ['W'] == "RATW" && "RATW" + ['D'] == "RATWD";
  }

  lemma StepKeepsGuest(s: State, entries: nat, a: Action)
    requires GuestOk(s.main, s.guest.debug, entries) && Enabled(s, a)
    ensures var t := Step(s, a).next;
            GuestOk(t.main, t.guest.debug, Bump(entries, Step(s, a), Entered(Handler)))
  {
    hide GuestOk;
    if a.MainStep? {
      MainKeepsGuest(s, entries, a.ok);
    } else {
      WorkerFrame(s, a);
      hide Step;
    }
  }

  // ---------------------------------------------------------------- order

  /** What must already hold when an event is logged. */
  lemma Causes(s: State, a: Action)
    requires Enabled(s, a) && Step(s, a).Logged?
    ensures var e := Step(s, a).event;
            && (e == Entered(Handler) ==> s.main.AwaitBridge? && s.link.completions > 0)
            && (e == Signalled ==> s.bridge.Signalling?)
            && (e.TriedIoeventfd? ==> s.main.DeassignIoeventfd?)
            && (e.TriedIrqfd? ==> s.main.DeassignIrqfd? || s.main.CleanupIrqfd?)
            && (e.AssignedIoeventfd? ==> s.main.AssignIoeventfd?)
            && (e.Consumed? ==> s.bridge.Reading? && e.count == s.link.counter)
  {
  }

  ghost predicate OrderOk(log: seq<Event>) {
    && Preceded(log, Entered(Handler), Signalled)
    && Preceded(log, Signalled, Consumed(1))
    && (forall removed :: Preceded(log, TriedIoeventfd(removed), BridgeEnded)
                          && Preceded(log, TriedIoeventfd(removed), WatchdogEnded))
  }

  lemma OrderAppend(log: seq<Event>, move: Move)
    requires OrderOk(log)
    requires move.Logged? && move.event == Entered(Handler) ==> Signalled in log
    requires move.Logged? && move.event == Signalled ==> Consumed(1) in log
    requires move.Logged? && move.event.TriedIoeventfd? ==> BridgeEnded in log && WatchdogEnded in log
    ensures OrderOk(Append(log, move))
  {
    hide Append; hide Preceded;
    PrecededAppend(log, move, Entered(Handler), Signalled);
    PrecededAppend(log, move, Signalled, Consumed(1));
    forall removed
      ensures Preceded(Append(log, move), TriedIoeventfd(removed), BridgeEnded)
      ensures Preceded(Append(log, move), TriedIoeventfd(removed), WatchdogEnded)
    {
      PrecededAppend(log, move, TriedIoeventfd(removed), BridgeEnded);
      PrecededAppend(log, move, TriedIoeventfd(removed), WatchdogEnded);
    }
  }

  lemma StepKeepsOrder(s: State, log: seq<Event>, a: Action)
    requires OrderOk(log) && LifetimesOk(s) && HandoverOk(s, Times(log, Signalled))
    requires EndsOk(s, Times(log, BridgeEnded), Times(log, WatchdogEnded))
    requires BridgeOk(s.bridge, Reads(log), Times(log, Signalled)) && Enabled(s, a)
    ensures OrderOk(Append(log, Step(s, a)))
  {
    if Step(s, a).Logged? {
      Causes(s, a);
      hide Step; hide OrderOk; hide Append; hide Reads;
      if Step(s, a).event == Signalled { ReadsAreConsumed(log, 1); }
    }
    OrderAppend(log, Step(s, a));
  }

  /** Both registrations were made: the irqfd's removal, too, is tried only after both workers
      ended, and after the ioeventfd's. */
  ghost predicate LastRemovalOk(log: seq<Event>) {
    AssignedIoeventfd in log ==>
      forall k :: 0 <= k < |log| && log[k].TriedIrqfd? ==> ReadyForLast(log[..k])
  }

  ghost predicate ReadyForLast(log: seq<Event>) {
    && BridgeEnded in log && WatchdogEnded in log
    && (TriedIoeventfd(true) in log || TriedIoeventfd(false) in log)
  }

  lemma LastRemovalAppend(log: seq<Event>, move: Move)
    requires LastRemovalOk(log)
    requires move.Logged? && move.event.TriedIrqfd? && AssignedIoeventfd in log ==> ReadyForLast(log)
    requires move.Logged? && move.event.AssignedIoeventfd? ==>
               TriedIrqfd(true) !in log && TriedIrqfd(false) !in log
    ensures LastRemovalOk(Append(log, move))
  {
    hide ReadyForLast;
    var longer := Append(log, move);
    if move.Logged? && AssignedIoeventfd in longer {
      forall k | 0 <= k < |longer| && longer[k].TriedIrqfd? ensures ReadyForLast(longer[..k]) {
        assert longer[..k] == log[..k];
        if k == |log| {
          assert log[..k] == log;
        } else {
          assert log[k] == longer[k] && log[k] == TriedIrqfd(log[k].removed);
        }
      }
    }
  }

  lemma StepKeepsLastRemoval(s: State, log: seq<Event>, a: Action)
    requires LastRemovalOk(log) && LifetimesOk(s) && Enabled(s, a)
    requires EndsOk(s, Times(log, BridgeEnded), Times(log, WatchdogEnded))
    requires RegistrationsOk(s.main, s.link.irqfd, s.link.ioeventfd, LedgerOf(log))
    ensures LastRemovalOk(Append(log, Step(s, a)))
  {
    if Step(s, a).Logged? {
      Causes(s, a);
      hide Step; hide LastRemovalOk; hide Append; hide Enabled;
    }
    LastRemovalAppend(log, Step(s, a));
  }

  /** What the bridge reads is the number of rings before it. */
  ghost predicate CountsRings(log: seq<Event>) {
    forall k :: 0 <= k < |log| && log[k].Consumed? ==> Times(log[..k], Rang) == log[k].count
  }

  ghost predicate RingsOk(s: State, log: seq<Event>) {
    && (s.bridge.BridgeUnborn? || s.bridge.Polling? || s.bridge.Reading? ==> Times(log, Rang) == s.link.counter)
    && CountsRings(log)
  }

  lemma CountsRingsAppend(log: seq<Event>, move: Move)
    requires CountsRings(log)
    requires move.Logged? && move.event.Consumed? ==> Times(log, Rang) == move.event.count
    ensures CountsRings(Append(log, move))
  {
    hide Times;
    var longer := Append(log, move);
    forall k | 0 <= k < |longer| && longer[k].Consumed? ensures Times(longer[..k], Rang) == longer[k].count {
      assert longer[..k] == log[..k];
      assert k == |log| ==> log[..k] == log;
    }
  }

  lemma StepKeepsRings(s: State, log: seq<Event>, a: Action)
    requires RingsOk(s, log) && LifetimesOk(s) && Enabled(s, a)
    ensures RingsOk(Step(s, a).next, Append(log, Step(s, a)))
  {
    hide Times; hide Append; hide CountsRings;
    TimesAppend(log, Step(s, a), Rang);
    if Step(s, a).Logged? { Causes(s, a); }
    CountsRingsAppend(log, Step(s, a));
    if a.MainStep? {
      MainFrame(s, a.ok);
      hide StepMain;
    }
  }

  // ---------------------------------------------------------------- halting

  /** The guest halted although it had taken an interrupt before. */
  ghost predicate HaltsAgain(log: seq<Event>) {
    exists k :: 0 <= k < |log| && log[k] == Halted && Took in log[..k]
  }

  lemma HaltsAgainAppend(log: seq<Event>, move: Move)
    ensures HaltsAgain(log) ==> HaltsAgain(Append(log, move))
    ensures move.Logged? && move.event == Halted && Took in log ==> HaltsAgain(Append(log, move))
  {
    var longer := Append(log, move);
    if HaltsAgain(log) {
      var k :| 0 <= k < |log| && log[k] == Halted && Took in log[..k];
      assert longer[k] == Halted && longer[..k] == log[..k];
    } else if move.Logged? && move.event == Halted && Took in log {
      assert longer[|log|] == Halted && longer[..|log|] == log;
    }
  }

  /** Until the first interrupt is taken, one is pending exactly when one was raised. */
  ghost predicate PendingOk(pending: bool, raised: nat, taken: nat) {
    taken == 0 ==> (pending <==> raised > 0)
  }

  lemma StepKeepsPending(s: State, signals: nat, pulses: nat, taken: nat, a: Action)
    requires PendingOk(s.guest.pending, signals + pulses, taken) && Enabled(s, a)
    ensures var move := Step(s, a);
            var raised := Bump(signals, move, Signalled) + Bump(pulses, move, Pulsed);
            PendingOk(move.next.guest.pending, raised, Bump(taken, move, Took))
  {
  }

  /** A halted guest is being run, and if it had taken an interrupt before, it halted again. */
  ghost predicate HaltOk(s: State, taken: nat, again: bool) {
    s.guest.halted ==> s.main.Running? && (taken > 0 ==> again)
  }

  lemma StepKeepsHalt(s: State, log: seq<Event>, a: Action)
    requires HaltOk(s, Times(log, Took), HaltsAgain(log)) && Enabled(s, a)
    ensures HaltOk(Step(s, a).next, Times(Append(log, Step(s, a)), Took), HaltsAgain(Append(log, Step(s, a))))
  {
    HaltsAgainAppend(log, Step(s, a));
    TimesAppend(log, Step(s, a), Took);
    assert Took in log <==> Times(log, Took) > 0;
    hide HaltsAgain; hide Append; hide Times;
    if a.MainStep? {
      HaltFrame(s, a.ok);
      hide StepMain;
    }
  }

  lemma HaltFrame(s: State, ok: bool)
    requires Enabled(s, MainStep(ok))
    ensures StepMain(s, ok).next.guest.halted == s.guest.halted && StepMain(s, ok).next.guest.pending == s.guest.pending
    ensures s.main.Running? ==> !s.guest.halted
  {
  }

  /** The watchdog is cancelled only once the guest is through. */
  ghost predicate CancelOk(s: State) {
    s.link.cancels > 0 || s.watchdog == WatchdogDone(Finished(false)) ==>
      || s.main.JoinBridge? || s.main.JoinWatchdog? || s.main.DeassignIoeventfd? || s.main.DeassignIrqfd?
      || s.main.Decide? || s.main.Returned?
  }

  lemma StepKeepsCancel(s: State, a: Action)
    requires CancelOk(s) && LifetimesOk(s) && Enabled(s, a)
    ensures CancelOk(Step(s, a).next)
  {
    if !a.MainStep? { WorkerFrame(s, a); }
  }

  // ---------------------------------------------------------------- every schedule

  /** The half of the invariant about the main thread. */
  ghost predicate MainInv(run: Run) {
    var s, log := run.state, run.log;
    && RegistrationsOk(s.main, s.link.irqfd, s.link.ioeventfd, LedgerOf(log))
    && LifetimesOk(s)
    && EndsOk(s, Times(log, BridgeEnded), Times(log, WatchdogEnded))
    && GuestOk(s.main, s.guest.debug, Times(log, Entered(Handler)))
  }

  /** The half about the hand-over from doorbell to interrupt. */
  ghost predicate BridgeInv(run: Run) {
    var s, log := run.state, run.log;
    && BridgeOk(s.bridge, Reads(log), Times(log, Signalled))
    && HandoverOk(s, Times(log, Signalled))
    && WatchdogOk(s.watchdog, Times(log, Pulsed))
  }

  /** And what the order of the log must be. */
  ghost predicate LogInv(run: Run) {
    OrderOk(run.log) && LastRemovalOk(run.log) && RingsOk(run.state, run.log)
  }

  /** And when the guest may be waiting. */
  ghost predicate HaltInv(run: Run) {
    var s, log := run.state, run.log;
    && PendingOk(s.guest.pending, Times(log, Signalled) + Times(log, Pulsed), Times(log, Took))
    && HaltOk(s, Times(log, Took), HaltsAgain(log))
    && CancelOk(s)
  }

  ghost predicate Inv(run: Run) {
    MainInv(run) && BridgeInv(run) && LogInv(run) && HaltInv(run)
  }

  ghost function After(run: Run, a: Action): Run
    requires Enabled(run.state, a)
  {
    Run(Step(run.state, a).next, Append(run.log, Step(run.state, a)))
  }

  lemma StepKeepsMainInv(run: Run, a: Action)
    requires MainInv(run) && Enabled(run.state, a)
    ensures MainInv(After(run, a))
  {
    var s, log, move := run.state, run.log, Step(run.state, a);
    hide Step; hide Append; hide Times; hide LedgerOf; hide Enabled; hide RegistrationsOk; hide LifetimesOk;
    hide EndsOk; hide GuestOk; hide Book;
    StepKeepsRegistrations(s, LedgerOf(log), a);
    StepKeepsLifetimes(s, a);
    StepKeepsEnds(s, Times(log, BridgeEnded), Times(log, WatchdogEnded), a);
    StepKeepsGuest(s, Times(log, Entered(Handler)), a);
    LedgerAppend(log, move);
    TimesAppend(log, move, BridgeEnded); TimesAppend(log, move, WatchdogEnded);
    TimesAppend(log, move, Entered(Handler));
  }

  lemma StepKeepsBridgeInv(run: Run, a: Action)
    requires LifetimesOk(run.state) && BridgeInv(run) && Enabled(run.state, a)
    ensures BridgeInv(After(run, a))
  {
    var s, log, move := run.state, run.log, Step(run.state, a);
    hide Step; hide Append; hide Times; hide Reads; hide Enabled; hide LifetimesOk; hide BridgeOk; hide HandoverOk;
    hide WatchdogOk;
    StepKeepsBridge(s, Reads(log), Times(log, Signalled), a);
    StepKeepsHandover(s, Reads(log), Times(log, Signalled), a);
    StepKeepsWatchdog(s, Times(log, Pulsed), a);
    ReadsAppend(log, move);
    TimesAppend(log, move, Signalled); TimesAppend(log, move, Pulsed);
  }

  lemma StepKeepsHaltInv(run: Run, a: Action)
    requires LifetimesOk(run.state) && HaltInv(run) && Enabled(run.state, a)
    ensures HaltInv(After(run, a))
  {
    var s, log, move := run.state, run.log, Step(run.state, a);
    hide Step; hide Append; hide Times; hide Enabled; hide LifetimesOk; hide PendingOk; hide HaltOk; hide CancelOk;
    hide HaltsAgain;
    StepKeepsPending(s, Times(log, Signalled), Times(log, Pulsed), Times(log, Took), a);
    StepKeepsHalt(s, log, a);
    StepKeepsCancel(s, a);
    TimesAppend(log, move, Signalled); TimesAppend(log, move, Pulsed); TimesAppend(log, move, Took);
  }

  lemma StepKeepsLogInv(run: Run, a: Action)
    requires Inv(run) && Enabled(run.state, a)
    ensures LogInv(After(run, a))
  {
    hide Step; hide Append; hide Times; hide Reads; hide LedgerOf; hide Enabled; hide RegistrationsOk; hide LifetimesOk;
    hide EndsOk; hide BridgeOk; hide HandoverOk; hide WatchdogOk; hide GuestOk; hide OrderOk; hide RingsOk;
    hide LastRemovalOk;
    StepKeepsRings(run.state, run.log, a);
    StepKeepsOrder(run.state, run.log, a);
    StepKeepsLastRemoval(run.state, run.log, a);
  }

  /** The invariants hold after every schedule. */
  lemma {:induction false} ReachableInv(schedule: seq<Action>)
    requires Exec(schedule).Some?
    ensures Inv(Exec(schedule).value)
  {
    if schedule == [] {
      assert Inv(Run(INIT, []));
    } else {
      hide LifetimesOk; hide Step; hide Append; hide Enabled;
      var earlier, a := schedule[..|schedule| - 1], schedule[|schedule| - 1];
      ReachableInv(earlier);
      assert LifetimesOk(Exec(earlier).value.state);
      hide MainInv; hide BridgeInv; hide LogInv; hide HaltInv;
      StepKeepsMainInv(Exec(earlier).value, a);
      StepKeepsBridgeInv(Exec(earlier).value, a);
      StepKeepsLogInv(Exec(earlier).value, a);
      StepKeepsHaltInv(Exec(earlier).value, a);
    }
  }

  // ---------------------------------------------------------------- what every run guarantees

  /** However the threads interleave and whatever fails, a run that returns has tried to remove
      each registration it made exactly once. When both were made, both removals come after both
      workers ended, the ioeventfd's first. A registration is still held exactly when its own
      removal failed, and no worker is left running. */
  lemma CleanupOnEveryPath(schedule: seq<Action>)
    requires Exec(schedule).Some? && Exec(schedule).value.state.main.Returned?
    ensures var Run(s, log) := Exec(schedule).value;
            && Times(log, AssignedIrqfd) <= 1
            && Times(log, AssignedIoeventfd) <= Times(log, AssignedIrqfd)
            && Times(log, TriedIrqfd(true)) + Times(log, TriedIrqfd(false)) == Times(log, AssignedIrqfd)
            && Times(log, TriedIoeventfd(true)) + Times(log, TriedIoeventfd(false)) == Times(log, AssignedIoeventfd)
            && (s.link.irqfd <==> Times(log, TriedIrqfd(false)) == 1)
            && (s.link.ioeventfd <==> Times(log, TriedIoeventfd(false)) == 1)
            && (forall removed :: Preceded(log, TriedIoeventfd(removed), BridgeEnded)
                                  && Preceded(log, TriedIoeventfd(removed), WatchdogEnded))
            && LastRemovalOk(log)
            && NamesOutcome(s.main.result, LedgerOf(log))
            && (s.bridge.BridgeUnborn? || s.bridge.BridgeDone?)
            && (s.watchdog.WatchdogUnborn? || s.watchdog.WatchdogDone?)
  {
    ReachableInv(schedule);
    hide Exec; hide Times; hide Preceded; hide Reads; hide RingsOk; hide LastRemovalOk; hide BridgeInv; hide HaltInv;
  }

  lemma ReturnedOk(s: State, l: Ledger, taken: seq<nat>, signals: nat, pulses: nat, entries: nat)
    requires s.main.Returned? && s.main.result.Ok?
    requires RegistrationsOk(s.main, s.link.irqfd, s.link.ioeventfd, l) && LifetimesOk(s)
    requires BridgeOk(s.bridge, taken, signals) && WatchdogOk(s.watchdog, pulses)
    requires GuestOk(s.main, s.guest.debug, entries)
    ensures s.main.result.value == 1 && taken == [1] && signals == 1 && pulses == 0 && entries == 1
    ensures s.guest.debug == "RATWD" && l == Ledger(1, 1, 1, 1, 0, 0) && !s.link.irqfd && !s.link.ioeventfd
  {
  }

  /** Success means the accelerated path did it: the bridge read the doorbell once and found
      exactly one ring, signalled the interrupt once, after that read and before the vCPU was
      entered again; the watchdog never raised the line; the guest printed its whole proof; both
      registrations are gone. */
  lemma SuccessProvesAcceleration(schedule: seq<Action>)
    requires Exec(schedule).Some? && Exec(schedule).value.state.main.Returned?
    requires Exec(schedule).value.state.main.result.Ok?
    ensures var Run(s, log) := Exec(schedule).value;
            && s.main.result.value == 1
            && Reads(log) == [1] && CountsRings(log)
            && Times(log, Signalled) == 1 && Times(log, Entered(Handler)) == 1
            && Preceded(log, Signalled, Consumed(1)) && Preceded(log, Entered(Handler), Signalled)
            && Times(log, Pulsed) == 0
            && s.guest.debug == "RATWD"
            && Times(log, TriedIrqfd(true)) == 1 && Times(log, TriedIoeventfd(true)) == 1
            && !s.link.irqfd && !s.link.ioeventfd
  {
    ReachableInv(schedule);
    hide Exec; hide Times; hide Preceded; hide Reads; hide CountsRings;
    hide RegistrationsOk; hide LifetimesOk; hide BridgeOk; hide WatchdogOk; hide GuestOk; hide HandoverOk; hide EndsOk;
    var Run(s, log) := Exec(schedule).value;
    ReturnedOk(s, LedgerOf(log), Reads(log), Times(log, Signalled), Times(log, Pulsed), Times(log, Entered(Handler)));
  }

  lemma Guarded(s: State, entries: nat)
    requires LifetimesOk(s) && GuestOk(s.main, s.guest.debug, entries)
    ensures s.bridge.Sending? ==> !s.main.Returned?
    ensures s.main != Returned(Err(ProofMismatch))
  {
  }

  /** The two failures the code guards against that cannot happen: the bridge's acknowledgement
      always finds its receiver, and a guest that printed every stage printed the proof. */
  lemma GuardedFailuresNeverHappen(schedule: seq<Action>)
    requires Exec(schedule).Some?
    ensures var s := Exec(schedule).value.state;
            && (s.bridge.Sending? ==> !s.main.Returned?)
            && s.main != Returned(Err(ProofMismatch))
  {
    ReachableInv(schedule);
    hide Exec; hide LifetimesOk; hide GuestOk; hide BridgeInv; hide LogInv;
    Guarded(Exec(schedule).value.state, Times(Exec(schedule).value.log, Entered(Handler)));
  }

  /** What a failure says: a registration that could not be removed comes before all else, then a
      worker that did not end well, then the guest; and each says what happened. */
  lemma VerdictTells(s: State, executed: bool, ioeventfdRemoved: bool, irqfdRemoved: bool)
    ensures var v := Verdict(s, executed, ioeventfdRemoved, irqfdRemoved);
            var removed := ioeventfdRemoved && irqfdRemoved;
            var bridged := s.bridge.BridgeDone? && s.bridge.end.Finished?;
            var guarded := s.watchdog.WatchdogDone? && s.watchdog.fired.Finished?;
            && (v == Err(DeassignIoeventfdFailed) <==> !ioeventfdRemoved)
            && (v == Err(DeassignIrqfdFailed) <==> ioeventfdRemoved && !irqfdRemoved)
            && (v == Err(BridgePanicked) || v == Err(BridgeFailed) <==> removed && !bridged)
            && (v == Err(BridgePanicked) ==> s.bridge == BridgeDone(Panicked))
            && (v == Err(WatchdogPanicked) || v == Err(WatchdogFailed) <==> removed && bridged && !guarded)
            && (v == Err(WatchdogPanicked) ==> s.watchdog == WatchdogDone(Panicked))
            && (v == Err(WatchdogFired) <==> removed && bridged && s.watchdog == WatchdogDone(Finished(true)))
            && (v == Err(ExecutionFailed) <==>
                  removed && bridged && s.watchdog == WatchdogDone(Finished(false)) && !executed)
            && (v.Ok? ==> s.bridge == BridgeDone(Finished(v.value)) && s.guest.debug == "RATWD")
            && v !in {Err(AssignIrqfdFailed), Err(AssignIoeventfdFailed), Err(CleanupIrqfdFailed)}
            && (v.Ok? ==> removed && executed && s.watchdog == WatchdogDone(Finished(false)))
  {
  }

  ghost predicate SucceedsExactly(s: State)
    requires s.main.Decide?
  {
    Verdict(s, s.main.executed, s.main.ioeventfdRemoved, s.main.irqfdRemoved).Ok? <==>
      && s.main.executed && s.main.ioeventfdRemoved && s.main.irqfdRemoved
      && s.bridge == BridgeDone(Finished(1)) && s.watchdog == WatchdogDone(Finished(false))
  }

  lemma VerdictOf(s: State, taken: seq<nat>, signals: nat, entries: nat)
    requires s.main.Decide? && BridgeOk(s.bridge, taken, signals) && GuestOk(s.main, s.guest.debug, entries)
    ensures SucceedsExactly(s)
  {
  }

  /** Given every earlier outcome, the verdict is success exactly when nothing went wrong. */
  lemma VerdictExact(schedule: seq<Action>)
    requires Exec(schedule).Some? && Exec(schedule).value.state.main.Decide?
    ensures SucceedsExactly(Exec(schedule).value.state)
  {
    ReachableInv(schedule);
    hide Exec; hide BridgeOk; hide GuestOk; hide SucceedsExactly;
    var Run(s, log) := Exec(schedule).value;
    VerdictOf(s, Reads(log), Times(log, Signalled), Times(log, Entered(Handler)));
  }

  // ---------------------------------------------------------------- failures are final

  /** A step of the main thread whose failure the program does not forgive. */
  predicate Fallible(main: Main) {
    main.AssignIrqfd? || main.AssignIoeventfd? || main.CleanupIrqfd? || main.Running? || main.CheckFlags?
    || main.AwaitBridge? || main.DeassignIoeventfd? || main.DeassignIrqfd?
  }

  /** The main thread can no longer succeed. */
  predicate Doomed(main: Main) {
    || main.CleanupIrqfd?
    || (main.Returned? && main.result.Err?)
    || ((main.SendCancel? || main.JoinBridge? || main.JoinWatchdog? || main.DeassignIoeventfd?) && !main.executed)
    || (main.DeassignIrqfd? && !(main.executed && main.ioeventfdRemoved))
    || (main.Decide? && !(main.executed && main.ioeventfdRemoved && main.irqfdRemoved))
  }

  lemma FailureDooms(s: State, a: Action)
    requires Enabled(s, a) && (Doomed(s.main) || (a == MainStep(false) && Fallible(s.main)))
    ensures Doomed(Step(s, a).next.main)
  {
    if !a.MainStep? { WorkerFrame(s, a); }
  }

  /** Nothing that fails is glossed over: a run in which a registration, a vCPU entry, a flags check,
      the wait for the bridge or a removal failed does not succeed, whatever comes after. */
  lemma {:induction false} FailureIsFinal(schedule: seq<Action>, k: nat)
    requires k < |schedule| && Exec(schedule).Some? && schedule[k] == MainStep(false)
    requires Exec(schedule[..k]).Some? && Fallible(Exec(schedule[..k]).value.state.main)
    ensures Doomed(Exec(schedule).value.state.main)
    ensures !(Exec(schedule).value.state.main.Returned? && Exec(schedule).value.state.main.result.Ok?)
  {
    hide Step; hide Fallible; hide Enabled;
    var n := |schedule| - 1;
    var before := Exec(schedule[..n]).value;
    if k == n {
      FailureDooms(before.state, schedule[n]);
    } else {
      assert schedule[..n][..k] == schedule[..k] && schedule[..n][k] == schedule[k];
      FailureIsFinal(schedule[..n], k);
      FailureDooms(before.state, schedule[n]);
    }
  }
}
