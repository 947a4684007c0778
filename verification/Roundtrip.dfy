/** The accelerated doorbell/interrupt round trip as interleaved steps of the vCPU thread, the
    bridge thread and the watchdog thread. Every call may fail, either worker may panic, every
    timed wait may time out, and the guest may ring the doorbell, halt and take a pending
    interrupt whenever the vCPU runs. Running a halted guest is the one wait without a timeout. */
module Roundtrip {
  import opened Words

  /** What the vCPU is entered for, named after the byte it must then print. */
  datatype Stage = Armed | Handler | Woke | Done

  function Byte(stage: Stage): char {
    match stage case Armed => 'A' case Handler => 'T' case Woke => 'W' case Done => 'D'
  }

  datatype Failure =
    | AssignIrqfdFailed | AssignIoeventfdFailed | CleanupIrqfdFailed
    | DeassignIoeventfdFailed | DeassignIrqfdFailed
    | BridgePanicked | BridgeFailed | WatchdogPanicked | WatchdogFailed | WatchdogFired
    | ExecutionFailed | ProofMismatch

  datatype Main =
    | AssignIrqfd
    | AssignIoeventfd
    | CleanupIrqfd
    | SpawnBridge
    | SpawnWatchdog
    | Running(stage: Stage)
    | CheckFlags(stage: Stage)
    | AwaitBridge
    | SendCancel(executed: bool)
    | JoinBridge(executed: bool)
    | JoinWatchdog(executed: bool)
    | DeassignIoeventfd(executed: bool)
    | DeassignIrqfd(executed: bool, ioeventfdRemoved: bool)
    | Decide(executed: bool, ioeventfdRemoved: bool, irqfdRemoved: bool)
    | Returned(result: Result<nat, Failure>)

  datatype End<T> = Panicked | Failed | Finished(value: T)

  datatype Bridge =
    | BridgeUnborn | Polling | Reading | CheckCount(count: nat) | Signalling(count: nat)
    | Sending(count: nat) | Sent(count: nat) | BridgeDone(end: End<nat>)

  datatype Watchdog =
    | WatchdogUnborn | Waiting | PulsingHigh | PulsingLow | WatchdogDone(fired: End<bool>)

  datatype Event =
    | AssignedIrqfd | AssignedIoeventfd
    | Entered(stage: Stage)
    | Rang
    | Consumed(count: nat)
    | Signalled
    | Pulsed
    | BridgeEnded | WatchdogEnded
    | TriedIoeventfd(removed: bool)
    | TriedIrqfd(removed: bool)
    | Halted
    | Took

  /** What the threads share: the doorbell eventfd's counter, the two channels, and which of the
      registrations the kernel holds. */
  datatype Link = Link(counter: nat, completions: nat, cancels: nat, irqfd: bool, ioeventfd: bool)

  /** The guest waits for an interrupt, one is waiting for the guest, and what it printed. */
  datatype Guest = Guest(halted: bool, pending: bool, debug: string)

  datatype State = State(main: Main, bridge: Bridge, watchdog: Watchdog, link: Link, guest: Guest)

  const INIT :=
    State(AssignIrqfd, BridgeUnborn, WatchdogUnborn, Link(0, 0, 0, false, false), Guest(false, false, "R"))

  /** A step's new state, and the event it leaves in the log if it leaves one. */
  datatype Move = Quiet(next: State) | Logged(next: State, event: Event)

  /** One step of one thread, where `ok` is how the call it makes turns out, or of the guest. */
  datatype Action =
    | MainStep(ok: bool)
    | Ring
    | Halt
    | Take
    | BridgeStep(ok: bool)
    | BridgePanic
    | WatchdogStep(ok: bool)
    | WatchdogPanic

  predicate Enabled(s: State, a: Action) {
    match a
    case MainStep(ok) =>
      && !s.main.Returned?
      && (s.main.Running? ==> !s.guest.halted)
      && (s.main.AwaitBridge? && ok ==> s.link.completions > 0)
      && (s.main.JoinBridge? ==> s.bridge.BridgeDone?)
      && (s.main.JoinWatchdog? ==> s.watchdog.WatchdogDone?)
    case Ring => s.main.Running? && s.link.ioeventfd && !s.guest.halted
    case Halt => s.main.Running? && !s.guest.halted
    case Take => s.main.Running? && s.guest.pending
    case BridgeStep(ok) =>
      && !s.bridge.BridgeUnborn? && !s.bridge.BridgeDone?
      && (s.bridge.Polling? && ok ==> s.link.counter > 0)
    case BridgePanic => !s.bridge.BridgeUnborn? && !s.bridge.BridgeDone?
    case WatchdogStep(ok) =>
      && !s.watchdog.WatchdogUnborn? && !s.watchdog.WatchdogDone?
      && (s.watchdog.Waiting? && ok ==> s.link.cancels > 0)
    case WatchdogPanic => !s.watchdog.WatchdogUnborn? && !s.watchdog.WatchdogDone?
  }

  function Step(s: State, a: Action): Move
    requires Enabled(s, a)
  {
    match a
    case MainStep(ok) => StepMain(s, ok)
    case Ring => Logged(s.(link := s.link.(counter := s.link.counter + 1)), Rang)
    case Halt => Logged(s.(guest := s.guest.(halted := true)), Halted)
    case Take => Logged(s.(guest := s.guest.(halted := false, pending := false)), Took)
    case BridgeStep(ok) => StepBridge(s, ok)
    case BridgePanic => EndBridge(s, Panicked)
    case WatchdogStep(ok) => StepWatchdog(s, ok)
    case WatchdogPanic => EndWatchdog(s, Panicked)
  }

  // ---------------------------------------------------------------- the vCPU thread

  function StepMain(s: State, ok: bool): Move
    requires Enabled(s, MainStep(ok))
  {
    match s.main
    case AssignIrqfd =>
      if ok then Logged(s.(main := AssignIoeventfd, link := s.link.(irqfd := true)), AssignedIrqfd)
      else Quiet(s.(main := Returned(Err(AssignIrqfdFailed))))
    case AssignIoeventfd =>
      if ok then Logged(s.(main := SpawnBridge, link := s.link.(ioeventfd := true)), AssignedIoeventfd)
      else Quiet(s.(main := CleanupIrqfd))
    case CleanupIrqfd =>
      Logged(s.(main := Returned(Err(if ok then AssignIoeventfdFailed else CleanupIrqfdFailed)),
                link := s.link.(irqfd := !ok)),
             TriedIrqfd(ok))
    case SpawnBridge => Quiet(s.(main := SpawnWatchdog, bridge := Polling))
    case SpawnWatchdog => Enter(s.(watchdog := Waiting), Armed)
    case Running(stage) =>
      if ok then Printed(s.(guest := s.guest.(debug := s.guest.debug + [Byte(stage)])), stage) else Abandon(s)
    case CheckFlags(stage) =>
      if !ok then Abandon(s)
      else if stage == Armed then Quiet(s.(main := AwaitBridge))
      else Quiet(s.(main := SendCancel(true)))
    case AwaitBridge =>
      if ok then Enter(s.(link := s.link.(completions := s.link.completions - 1)), Handler) else Abandon(s)
    case SendCancel(executed) =>
      var sent := if s.watchdog.WatchdogDone? then 0 else 1;
      Quiet(s.(main := JoinBridge(executed), link := s.link.(cancels := s.link.cancels + sent)))
    case JoinBridge(executed) => Quiet(s.(main := JoinWatchdog(executed)))
    case JoinWatchdog(executed) => Quiet(s.(main := DeassignIoeventfd(executed)))
    case DeassignIoeventfd(executed) =>
      Logged(s.(main := DeassignIrqfd(executed, ok), link := s.link.(ioeventfd := !ok)), TriedIoeventfd(ok))
    case DeassignIrqfd(executed, ioeventfdRemoved) =>
      Logged(s.(main := Decide(executed, ioeventfdRemoved, ok), link := s.link.(irqfd := !ok)), TriedIrqfd(ok))
    case Decide(executed, ioeventfdRemoved, irqfdRemoved) =>
      Quiet(s.(main := Returned(Verdict(s, executed, ioeventfdRemoved, irqfdRemoved))))
  }

  /** The guest part of the protocol failed; cleanup follows all the same. */
  function Abandon(s: State): Move {
    Quiet(s.(main := SendCancel(false)))
  }

  function Enter(s: State, stage: Stage): Move {
    Logged(s.(main := Running(stage)), Entered(stage))
  }

  /** The vCPU stopped at the expected one-byte debug output. */
  function Printed(s: State, stage: Stage): Move {
    match stage
    case Armed => Quiet(s.(main := CheckFlags(Armed)))
    case Handler => Enter(s, Woke)
    case Woke => Enter(s, Done)
    case Done => Quiet(s.(main := CheckFlags(Done)))
  }

  /** Cleanup failures come first, then the workers, then the guest. */
  function Verdict(s: State, executed: bool, ioeventfdRemoved: bool, irqfdRemoved: bool): Result<nat, Failure> {
    if !ioeventfdRemoved then Err(DeassignIoeventfdFailed)
    else if !irqfdRemoved then Err(DeassignIrqfdFailed)
    else if s.bridge == BridgeDone(Panicked) then Err(BridgePanicked)
    else if !s.bridge.BridgeDone? || !s.bridge.end.Finished? then Err(BridgeFailed)
    else if s.watchdog == WatchdogDone(Panicked) then Err(WatchdogPanicked)
    else if !s.watchdog.WatchdogDone? || !s.watchdog.fired.Finished? then Err(WatchdogFailed)
    else if s.watchdog.fired.value then Err(WatchdogFired)
    else if !executed then Err(ExecutionFailed)
    else if s.guest.debug != "RATWD" then Err(ProofMismatch)
    else Ok(s.bridge.end.value)
  }

  // ---------------------------------------------------------------- the bridge thread

  function EndBridge(s: State, end: End<nat>): Move {
    Logged(s.(bridge := BridgeDone(end)), BridgeEnded)
  }

  function StepBridge(s: State, ok: bool): Move
    requires Enabled(s, BridgeStep(ok))
  {
    match s.bridge
    case Polling => if ok then Quiet(s.(bridge := Reading)) else EndBridge(s, Failed)
    case Reading =>
      if ok then
        Logged(s.(bridge := CheckCount(s.link.counter), link := s.link.(counter := 0)), Consumed(s.link.counter))
      else EndBridge(s, Failed)
    case CheckCount(count) => if count == 1 then Quiet(s.(bridge := Signalling(count))) else EndBridge(s, Failed)
    case Signalling(count) =>
      if ok then Logged(s.(bridge := Sending(count), guest := s.guest.(pending := true)), Signalled)
      else EndBridge(s, Failed)
    case Sending(count) =>
      // The receiver is dropped when the main thread returns.
      if s.main.Returned? then EndBridge(s, Failed)
      else Quiet(s.(bridge := Sent(count), link := s.link.(completions := s.link.completions + 1)))
    case Sent(count) => EndBridge(s, Finished(count))
  }

  // ---------------------------------------------------------------- the watchdog thread

  function EndWatchdog(s: State, fired: End<bool>): Move {
    Logged(s.(watchdog := WatchdogDone(fired)), WatchdogEnded)
  }

  function StepWatchdog(s: State, ok: bool): Move
    requires Enabled(s, WatchdogStep(ok))
  {
    match s.watchdog
    case Waiting =>
      if ok then EndWatchdog(s.(link := s.link.(cancels := s.link.cancels - 1)), Finished(false))
      else Quiet(s.(watchdog := PulsingHigh))
    case PulsingHigh =>
      if ok then Logged(s.(watchdog := PulsingLow, guest := s.guest.(pending := true)), Pulsed)
      else EndWatchdog(s, Failed)
    case PulsingLow => EndWatchdog(s, if ok then Finished(true) else Failed)
  }

  // ---------------------------------------------------------------- runs

  function Append(log: seq<Event>, move: Move): seq<Event> {
    if move.Logged? then log + [move.event] else log
  }

  datatype Run = Run(state: State, log: seq<Event>)

  /** State and log after a schedule, if every step of it could be taken. */
  function Exec(schedule: seq<Action>): Option<Run> {
    if schedule == [] then Some(Run(INIT, []))
    else
      var before := Exec(schedule[..|schedule| - 1]);
      var last := schedule[|schedule| - 1];
      if before.None? || !Enabled(before.value.state, last) then None
      else
        var move := Step(before.value.state, last);
        Some(Run(move.next, Append(before.value.log, move)))
  }

  // ---------------------------------------------------------------- reading the log

  ghost function Times(log: seq<Event>, e: Event): nat {
    multiset(log)[e]
  }

  lemma TimesAppend(log: seq<Event>, move: Move, e: Event)
    ensures Times(Append(log, move), e) == Times(log, e) + if move.Logged? && move.event == e then 1 else 0
  {
  }

  /** What the bridge has read from the doorbell, in order. */
  ghost function Reads(log: seq<Event>): seq<nat> {
    if log == [] then []
    else
      var last := log[|log| - 1];
      Reads(log[..|log| - 1]) + if last.Consumed? then [last.count] else []
  }

  lemma ReadsAppend(log: seq<Event>, move: Move)
    ensures Reads(Append(log, move)) ==
            Reads(log) + if move.Logged? && move.event.Consumed? then [move.event.count] else []
  {
    if move.Logged? { assert Append(log, move)[..|log|] == log; }
  }

  lemma {:induction false} ReadsAreConsumed(log: seq<Event>, n: nat)
    requires n in Reads(log)
    ensures Consumed(n) in log
  {
    if log[|log| - 1] != Consumed(n) { ReadsAreConsumed(log[..|log| - 1], n); }
  }

  /** Every `later` in the log comes after some `earlier`. */
  ghost predicate Preceded(log: seq<Event>, later: Event, earlier: Event) {
    forall k :: 0 <= k < |log| && log[k] == later ==> earlier in log[..k]
  }

  lemma PrecededAppend(log: seq<Event>, move: Move, later: Event, earlier: Event)
    requires Preceded(log, later, earlier)
    requires move.Logged? && move.event == later ==> earlier in log
    ensures Preceded(Append(log, move), later, earlier)
  {
    var longer := Append(log, move);
    assert longer[..|log|] == log;
    forall k | 0 <= k < |longer| && longer[k] == later ensures earlier in longer[..k] {
      if k < |log| { assert longer[..k] == log[..k]; }
    }
  }

  /** How often each registration was made, removed, and failed to be removed. */
  datatype Ledger = Ledger(
    irqfds: nat, ioeventfds: nat, irqfdsRemoved: nat, ioeventfdsRemoved: nat, irqfdsStuck: nat, ioeventfdsStuck: nat)

  ghost function LedgerOf(log: seq<Event>): Ledger {
    Ledger(Times(log, AssignedIrqfd), Times(log, AssignedIoeventfd),
           Times(log, TriedIrqfd(true)), Times(log, TriedIoeventfd(true)),
           Times(log, TriedIrqfd(false)), Times(log, TriedIoeventfd(false)))
  }

  ghost function Book(l: Ledger, move: Move): Ledger {
    if move.Quiet? then l
    else
      match move.event
      case AssignedIrqfd => l.(irqfds := l.irqfds + 1)
      case AssignedIoeventfd => l.(ioeventfds := l.ioeventfds + 1)
      case TriedIrqfd(removed) =>
        if removed then l.(irqfdsRemoved := l.irqfdsRemoved + 1) else l.(irqfdsStuck := l.irqfdsStuck + 1)
      case TriedIoeventfd(removed) =>
        if removed then l.(ioeventfdsRemoved := l.ioeventfdsRemoved + 1)
        else l.(ioeventfdsStuck := l.ioeventfdsStuck + 1)
      case _ => l
  }

  lemma LedgerAppend(log: seq<Event>, move: Move)
    ensures LedgerOf(Append(log, move)) == Book(LedgerOf(log), move)
  {
    hide Times; hide Append;
    TimesAppend(log, move, AssignedIrqfd); TimesAppend(log, move, AssignedIoeventfd);
    TimesAppend(log, move, TriedIrqfd(true)); TimesAppend(log, move, TriedIrqfd(false));
    TimesAppend(log, move, TriedIoeventfd(true)); TimesAppend(log, move, TriedIoeventfd(false));
  }
}
