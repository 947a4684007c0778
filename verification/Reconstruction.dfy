/** Acquiring and releasing a pair of host registrations against a kernel any of whose calls
    may fail. */
module Reconstruction {
  import opened Words
  import opened HostRegistration

  /** One live kernel registration; `eventfd` is the identity of the eventfd object behind it. */
  datatype Registration =
    | IoEventFd(address: u64, length: u32, datamatch: u64, eventfd: nat)
    | IrqFd(gsi: u32, eventfd: nat)

  datatype Extension = IrqfdExtension | IoeventfdExtension

  datatype Op =
    | CheckExtension(extension: Extension)
    | SetLevel(gsi: u32, high: bool)
    | CreateEventfd
    | DuplicateEventfd(eventfd: nat)
    | Assign(entry: Registration)
    | Remove(entry: Registration)

  datatype Call = Call(op: Op, ok: bool)

  datatype Error =
    | ExtensionQueryFailed(extension: Extension)
    | MissingExtension(extension: Extension)
    | SetLevelFailed
    | CreateEventfdFailed
    | DuplicateEventfdFailed
    | AssignIrqfdFailed
    | AssignIoeventfdFailed
    | CleanupIrqfdFailed
    | DeassignIoeventfdFailed
    | DeassignIrqfdFailed
    | RollbackFailed(second: Error, first: Error)
    | DeassignPairFailed(second: Error, first: Error)

  /** The registrations some removal since call `from` failed to remove. */
  ghost function Stuck(log: seq<Call>, from: nat): set<Registration> {
    set i | from <= i < |log| && log[i].op.Remove? && !log[i].ok :: log[i].op.entry
  }

  lemma StuckAppend(log: seq<Call>, call: Call, from: nat)
    requires from <= |log|
    ensures Stuck(log + [call], from) ==
            Stuck(log, from) + if call.op.Remove? && !call.ok then {call.op.entry} else {}
  {
    var longer := log + [call];
    assert longer[|log|] == call;
    assert forall i :: 0 <= i < |log| ==> longer[i] == log[i];
  }

  lemma StuckSplit(log: seq<Call>, earlier: seq<Call>, from: nat)
    requires from <= |earlier| && earlier <= log
    ensures Stuck(log, from) == Stuck(earlier, from) + Stuck(log, |earlier|)
  {
    assert forall i :: 0 <= i < |earlier| ==> log[i] == earlier[i];
    forall e | e in Stuck(earlier, from) ensures e in Stuck(log, from) {
      var i :| from <= i < |earlier| && earlier[i].op.Remove? && !earlier[i].ok && earlier[i].op.entry == e;
      assert log[i].op.entry == e;
    }
  }

  /** No call since `from` failed. */
  ghost predicate Clean(log: seq<Call>, from: nat) {
    forall i :: from <= i < |log| ==> log[i].ok
  }

  /** An error of an acquisition tells which call stopped it, at the end of the log. */
  ghost predicate Tells(error: Error, log: seq<Call>) {
    && log != []
    && var last := log[|log| - 1];
       match error
       case ExtensionQueryFailed(extension) => last == Call(CheckExtension(extension), false)
       case MissingExtension(extension) => last == Call(CheckExtension(extension), true)
       case SetLevelFailed => last.op.SetLevel? && !last.op.high && !last.ok
       case CreateEventfdFailed => last == Call(CreateEventfd, false)
       case DuplicateEventfdFailed => last.op.DuplicateEventfd? && !last.ok
       case AssignIrqfdFailed =>
         !last.ok && (last.op.CreateEventfd? || last.op.DuplicateEventfd? || (last.op.Assign? && last.op.entry.IrqFd?))
       case AssignIoeventfdFailed => DoorbellRefused(log) && last.ok
       case CleanupIrqfdFailed => DoorbellRefused(log) && !last.ok
       case _ => false
  }

  /** The doorbell was refused and then the interrupt taken back. */
  ghost predicate DoorbellRefused(log: seq<Call>) {
    && |log| >= 2
    && var refused, last := log[|log| - 2], log[|log| - 1];
       && refused.op.Assign? && refused.op.entry.IoEventFd? && !refused.ok
       && last.op.Remove? && last.op.entry.IrqFd?
  }

  lemma RollbackTells(log: seq<Call>, removed: bool)
    requires DoorbellRefused(log) && log[|log| - 1].ok == removed
    ensures Tells(if removed then AssignIoeventfdFailed else CleanupIrqfdFailed, log)
  {
  }

  lemma NothingStuckYet(log: seq<Call>)
    ensures Stuck(log, |log|) == {}
  {
  }

  /** A virtual machine's registrations. The outcome of every call is arbitrary: `fails(n)` says
      whether the n-th one does. */
  class Kernel {
    const fails: nat -> bool
    const irqfdSupport: int
    const ioeventfdSupport: int
    var registered: set<Registration>
    var eventfds: nat
    var log: seq<Call>

    ghost predicate Valid()
      reads this
    {
      forall e :: e in registered ==> e.eventfd < eventfds
    }

    constructor (fails: nat -> bool, irqfdSupport: int, ioeventfdSupport: int)
      ensures Valid() && registered == {} && log == [] && this.fails == fails
    {
      this.fails, this.irqfdSupport, this.ioeventfdSupport := fails, irqfdSupport, ioeventfdSupport;
      registered, eventfds, log := {}, 0, [];
    }

    /** One kernel call: recorded, and effective exactly when it does not fail. */
    method Perform(op: Op) returns (ok: bool)
      requires Valid()
      requires op.Assign? ==> op.entry.eventfd < eventfds
      modifies this
      ensures Valid()
      ensures log == old(log) + [Call(op, ok)] && ok == !fails(|old(log)|)
      ensures log[|old(log)|] == Call(op, ok)
      ensures registered == if !ok then old(registered)
                            else if op.Assign? then old(registered) + {op.entry}
                            else if op.Remove? then old(registered) - {op.entry}
                            else old(registered)
      ensures eventfds == old(eventfds) + if ok && op.CreateEventfd? then 1 else 0
      ensures forall from: nat {:trigger Stuck(log, from)} :: from <= |old(log)| ==>
                Stuck(log, from) == Stuck(old(log), from) + if op.Remove? && !ok then {op.entry} else {}
    {
      ok := !fails(|log|);
      forall from: nat | from <= |log|
        ensures Stuck(log + [Call(op, ok)], from) ==
                Stuck(log, from) + if op.Remove? && !ok then {op.entry} else {}
      {
        StuckAppend(log, Call(op, ok), from);
      }
      log := log + [Call(op, ok)];
      if ok {
        match op {
          case Assign(entry) => registered := registered + {entry};
          case Remove(entry) => registered := registered - {entry};
          case CreateEventfd => eventfds := eventfds + 1;
          case _ =>
        }
      }
    }

    function Support(extension: Extension): int {
      if extension.IrqfdExtension? then irqfdSupport else ioeventfdSupport
    }

    ghost predicate Supported() {
      irqfdSupport > 0 && ioeventfdSupport > 0
    }

    method Require(extension: Extension) returns (r: Result<(), Error>)
      requires Valid()
      modifies this
      ensures Valid() && registered == old(registered) && eventfds == old(eventfds)
      ensures var n := |old(log)|;
              && |log| == n + 1 && old(log) <= log && log[n].op == CheckExtension(extension)
              && (r.Ok? <==> log[n].ok && Support(extension) > 0)
      ensures r.Err? ==> r.error in {ExtensionQueryFailed(extension), MissingExtension(extension)}
      ensures r.Err? ==> Tells(r.error, log)
      ensures forall from: nat {:trigger Stuck(log, from)} ::
                from <= |old(log)| ==> Stuck(log, from) == Stuck(old(log), from)
    {
      var ok := Perform(CheckExtension(extension));
      if !ok { return Err(ExtensionQueryFailed(extension)); }
      if Support(extension) <= 0 { return Err(MissingExtension(extension)); }
      r := Ok(());
    }

    /** A fresh eventfd and a second handle on it. */
    method NewEventfd() returns (r: Result<nat, Error>)
      requires Valid()
      modifies this
      ensures Valid() && registered == old(registered)
      ensures old(eventfds) <= eventfds
      ensures r.Ok? ==> r.value == old(eventfds) && eventfds == old(eventfds) + 1
      ensures r.Ok? ==> log == old(log) + [Call(CreateEventfd, true), Call(DuplicateEventfd(r.value), true)]
      ensures r.Err? ==> r.error in {CreateEventfdFailed, DuplicateEventfdFailed}
      ensures r.Err? ==> Tells(r.error, log)
      ensures old(log) <= log && (r.Ok? <==> Clean(log, |old(log)|))
      ensures forall from: nat {:trigger Stuck(log, from)} ::
                from <= |old(log)| ==> Stuck(log, from) == Stuck(old(log), from)
    {
      var id := eventfds;
      var created := Perform(CreateEventfd);
      if !created { return Err(CreateEventfdFailed); }
      var duplicated := Perform(DuplicateEventfd(id));
      if !duplicated { return Err(DuplicateEventfdFailed); }
      r := Ok(id);
    }
  }

  /** A live doorbell and its interrupt, with the eventfds that back them. */
  datatype Registrations = Registrations(spec: Spec, doorbell: nat, irq: nat) {

    function DoorbellEntry(): Registration {
      IoEventFd(spec.address, spec.length, spec.datamatch, doorbell)
    }

    function IrqEntry(): Registration {
      IrqFd(spec.gsi, irq)
    }

    function Entries(): set<Registration> {
      {DoorbellEntry(), IrqEntry()}
    }
  }

  ghost function Preparation(gsi: u32, doorbell: nat): seq<Call> {
    [ Call(CheckExtension(IrqfdExtension), true), Call(CheckExtension(IoeventfdExtension), true),
      Call(SetLevel(gsi, false), true), Call(CreateEventfd, true), Call(DuplicateEventfd(doorbell), true) ]
  }

  /** The calls a complete acquisition makes: every eventfd is ready and the line is low before
      the kernel is told of either registration. */
  ghost function Acquisition(live: Registrations): seq<Call> {
    Preparation(live.spec.gsi, live.doorbell)
    + [Call(CreateEventfd, true), Call(DuplicateEventfd(live.irq), true), Call(Assign(live.IrqEntry()), true)]
    + [Call(Assign(live.DoorbellEntry()), true)]
  }

  /** An error about one registration, not about both of a pair. */
  predicate Single(error: Error) {
    !error.RollbackFailed? && !error.DeassignPairFailed?
  }

  /** An error that says a registration was left behind. */
  predicate ReportsLeak(error: Error) {
    error.CleanupIrqfdFailed? || error.RollbackFailed?
  }

  /** Everything before the kernel is told of a registration: both extensions, a low line and the
      doorbell's eventfd. */
  method PrepareDoorbell(kernel: Kernel, gsi: u32) returns (r: Result<nat, Error>)
    requires kernel.Valid()
    modifies kernel
    ensures kernel.Valid() && kernel.registered == old(kernel.registered)
    ensures old(kernel.log) <= kernel.log && old(kernel.eventfds) <= kernel.eventfds
    ensures r.Ok? ==>
              && r.value == old(kernel.eventfds) && kernel.eventfds == r.value + 1
              && kernel.log == old(kernel.log) + Preparation(gsi, r.value)
    ensures r.Err? ==> !ReportsLeak(r.error) && Single(r.error) && Tells(r.error, kernel.log)
    ensures r.Ok? <==> kernel.Supported() && Clean(kernel.log, |old(kernel.log)|)
    ensures Stuck(kernel.log, |old(kernel.log)|) == {}
  {
    NothingStuckYet(kernel.log);
    hide Stuck;
    var irqfdSupported := kernel.Require(IrqfdExtension);
    if irqfdSupported.Err? { return Err(irqfdSupported.error); }
    var ioeventfdSupported := kernel.Require(IoeventfdExtension);
    if ioeventfdSupported.Err? { return Err(ioeventfdSupported.error); }
    var lowered := kernel.Perform(SetLevel(gsi, false));
    if !lowered { return Err(SetLevelFailed); }
    r := kernel.NewEventfd();
  }

  /** An interrupt eventfd, registered once both its handles exist. */
  method AssignWithSignal(kernel: Kernel, gsi: u32) returns (r: Result<nat, Error>)
    requires kernel.Valid()
    modifies kernel
    ensures kernel.Valid() && old(kernel.log) <= kernel.log && old(kernel.eventfds) <= kernel.eventfds
    ensures r.Ok? ==>
              && r.value == old(kernel.eventfds) && kernel.eventfds == r.value + 1
              && kernel.registered == old(kernel.registered) + {IrqFd(gsi, r.value)}
              && kernel.log == old(kernel.log) + [Call(CreateEventfd, true), Call(DuplicateEventfd(r.value), true),
                                                  Call(Assign(IrqFd(gsi, r.value)), true)]
    ensures r.Err? ==> kernel.registered == old(kernel.registered) && r.error == AssignIrqfdFailed
    ensures r.Err? ==> Tells(AssignIrqfdFailed, kernel.log)
    ensures r.Ok? <==> Clean(kernel.log, |old(kernel.log)|)
    ensures forall from: nat {:trigger Stuck(kernel.log, from)} ::
              from <= |old(kernel.log)| ==> Stuck(kernel.log, from) == Stuck(old(kernel.log), from)
  {
    hide Stuck;
    var eventfd := kernel.NewEventfd();
    if eventfd.Err? { return Err(AssignIrqfdFailed); }
    var installed := kernel.Perform(Assign(IrqFd(gsi, eventfd.value)));
    if !installed { return Err(AssignIrqfdFailed); }
    r := eventfd;
  }

  method Reconstruct(kernel: Kernel, spec: Spec) returns (r: Result<Registrations, Error>)
    requires kernel.Valid()
    modifies kernel
    ensures kernel.Valid() && old(kernel.log) <= kernel.log && old(kernel.eventfds) <= kernel.eventfds
    ensures r.Ok? <==> kernel.Supported() && Clean(kernel.log, |old(kernel.log)|)
    ensures r.Ok? ==>
              && r.value == Registrations(spec, old(kernel.eventfds), old(kernel.eventfds) + 1)
              && kernel.eventfds == old(kernel.eventfds) + 2
              && kernel.registered == old(kernel.registered) + r.value.Entries()
              && kernel.log == old(kernel.log) + Acquisition(r.value)
    ensures r.Err? ==> kernel.registered == old(kernel.registered) + Stuck(kernel.log, |old(kernel.log)|)
    ensures forall e :: e in Stuck(kernel.log, |old(kernel.log)|) ==> e.IrqFd? && old(kernel.eventfds) <= e.eventfd
    ensures r.Err? ==> Single(r.error) && Tells(r.error, kernel.log)
    ensures r.Err? ==> (ReportsLeak(r.error) <==> Stuck(kernel.log, |old(kernel.log)|) != {})
    ensures r.Ok? ==> Stuck(kernel.log, |old(kernel.log)|) == {}
  {
    hide Stuck; hide Tells;
    var doorbell := PrepareDoorbell(kernel, spec.gsi);
    if doorbell.Err? { return Err(doorbell.error); }
    var irq := AssignWithSignal(kernel, spec.gsi);
    if irq.Err? { return Err(irq.error); }
    var live := Registrations(spec, doorbell.value, irq.value);
    var installed := kernel.Perform(Assign(live.DoorbellEntry()));
    if !installed {
      ghost var failed := |kernel.log| - 1;
      var removed := kernel.Perform(Remove(live.IrqEntry()));
      assert !kernel.log[failed].ok;
      RollbackTells(kernel.log, removed);
      return Err(if removed then AssignIoeventfdFailed else CleanupIrqfdFailed);
    }
    r := Ok(live);
  }

  // ---------------------------------------------------------------- what a failure names

  function RemovalResult(doorbellRemoved: bool, irqRemoved: bool): Result<(), Error> {
    if !doorbellRemoved then Err(DeassignIoeventfdFailed)
    else if !irqRemoved then Err(DeassignIrqfdFailed)
    else Ok(())
  }

  function PairResult(second: Result<(), Error>, first: Result<(), Error>): Result<(), Error> {
    match (second, first)
    case (Ok(_), Ok(_)) => Ok(())
    case (Err(error), Ok(_)) => Err(error)
    case (Ok(_), Err(error)) => Err(error)
    case (Err(a), Err(b)) => Err(DeassignPairFailed(a, b))
  }

  /** The entries of a registration whose removal failed. */
  function Survivors(live: Registrations, doorbellRemoved: bool, irqRemoved: bool): set<Registration> {
    (if doorbellRemoved then {} else {live.DoorbellEntry()}) + (if irqRemoved then {} else {live.IrqEntry()})
  }

  /** A plain error says which kind of entry could not be removed. */
  predicate NamesKind(error: Error, e: Registration) {
    (error.DeassignIoeventfdFailed? && e.IoEventFd?)
    || ((error.DeassignIrqfdFailed? || error.CleanupIrqfdFailed?) && e.IrqFd?)
  }

  /** A double error says it for each registration of the pair. */
  predicate Names(error: Error, first: Registrations, e: Registration) {
    match error
    case RollbackFailed(ofSecond, ofFirst) => NamesKind(if e in first.Entries() then ofFirst else ofSecond, e)
    case DeassignPairFailed(ofSecond, ofFirst) => NamesKind(if e in first.Entries() then ofFirst else ofSecond, e)
    case _ => NamesKind(error, e)
  }

  ghost predicate AllNamed(error: Error, first: Registrations, entries: set<Registration>) {
    forall e :: e in entries ==> Names(error, first, e)
  }

  /** When both removals of a registration fail, the error names the doorbell alone and the
      surviving interrupt entry nowhere. */
  lemma BothFailedHidesInterrupt(live: Registrations)
    ensures RemovalResult(false, false) == RemovalResult(false, true)
    ensures live.IrqEntry() in Survivors(live, false, false)
    ensures !Names(RemovalResult(false, false).error, live, live.IrqEntry())
  {
  }

  /** The error of removing a pair names every survivor if and only if no registration of the pair
      had both its removals fail. */
  lemma PairNamesSurvivors(live: RegistrationPair, d2: bool, i2: bool, d1: bool, i1: bool)
    requires live.Distinct()
    ensures var r := PairResult(RemovalResult(d2, i2), RemovalResult(d1, i1));
            var survivors := Survivors(live.second, d2, i2) + Survivors(live.first, d1, i1);
            && (r.Ok? <==> survivors == {})
            && (r.Err? ==> (AllNamed(r.error, live.first, survivors) <==> (d2 || i2) && (d1 || i1)))
  {
    var survivors := Survivors(live.second, d2, i2) + Survivors(live.first, d1, i1);
    assert live.second.DoorbellEntry() !in live.first.Entries() && live.second.IrqEntry() !in live.first.Entries();
    assert !d2 ==> live.second.DoorbellEntry() in survivors;
    assert !i2 ==> live.second.IrqEntry() in survivors;
    assert !d1 ==> live.first.DoorbellEntry() in survivors;
    assert !i1 ==> live.first.IrqEntry() in survivors;
  }

  // ---------------------------------------------------------------- removing

  /** Both removals are attempted whatever the first one does. */
  method Deassign(kernel: Kernel, live: Registrations) returns (r: Result<(), Error>)
    requires kernel.Valid()
    modifies kernel
    ensures kernel.Valid() && kernel.eventfds == old(kernel.eventfds)
    ensures |kernel.log| == |old(kernel.log)| + 2 && old(kernel.log) <= kernel.log
    ensures var n := |old(kernel.log)|;
            && kernel.log[n].op == Remove(live.DoorbellEntry()) && kernel.log[n + 1].op == Remove(live.IrqEntry())
            && r == RemovalResult(kernel.log[n].ok, kernel.log[n + 1].ok)
            && Stuck(kernel.log, n) == Survivors(live, kernel.log[n].ok, kernel.log[n + 1].ok)
    ensures kernel.registered == old(kernel.registered) - (live.Entries() - Stuck(kernel.log, |old(kernel.log)|))
  {
    NothingStuckYet(kernel.log);
    hide Stuck;
    var first := kernel.Perform(Remove(live.DoorbellEntry()));
    var second := kernel.Perform(Remove(live.IrqEntry()));
    r := if !first then Err(DeassignIoeventfdFailed) else if !second then Err(DeassignIrqfdFailed) else Ok(());
  }

  datatype RegistrationPair = RegistrationPair(first: Registrations, second: Registrations) {
    function Entries(): set<Registration> {
      first.Entries() + second.Entries()
    }

    /** The four registrations are four different kernel objects. */
    ghost predicate Distinct() {
      first.Entries() !! second.Entries()
    }
  }

  /** All or nothing: success adds exactly the pair's four new registrations; failure leaves
      exactly the registrations whose removal failed. The error says whether there are any, and
      names them all unless both removals of the first registration failed. */
  method ReconstructPair(kernel: Kernel, pair: Pair) returns (r: Result<RegistrationPair, Error>)
    requires kernel.Valid()
    modifies kernel
    ensures kernel.Valid() && old(kernel.log) <= kernel.log
    ensures r.Ok? <==> kernel.Supported() && Clean(kernel.log, |old(kernel.log)|)
    ensures r.Ok? ==>
              && r.value.first.spec == pair.first && r.value.second.spec == pair.second
              && r.value.Distinct() && r.value.Entries() !! old(kernel.registered)
              && kernel.registered == old(kernel.registered) + r.value.Entries()
              && kernel.log == old(kernel.log) + Acquisition(r.value.first) + Acquisition(r.value.second)
    ensures r.Err? ==>
              && kernel.registered == old(kernel.registered) + Stuck(kernel.log, |old(kernel.log)|)
              && Stuck(kernel.log, |old(kernel.log)|) !! old(kernel.registered)
              && (ReportsLeak(r.error) <==> kernel.registered != old(kernel.registered))
    ensures r.Err? ==>
              var first := Registrations(pair.first, old(kernel.eventfds), old(kernel.eventfds) + 1);
              var stuck := Stuck(kernel.log, |old(kernel.log)|);
              AllNamed(r.error, first, stuck) <==> !(first.Entries() <= stuck)
  {
    hide Stuck; hide Acquisition; hide AllNamed;
    var first := Reconstruct(kernel, pair.first);
    if first.Err? {
      LeftoverNamed(first.error, Registrations(pair.first, old(kernel.eventfds), old(kernel.eventfds) + 1),
                    Stuck(kernel.log, |old(kernel.log)|));
      return Err(first.error);
    }
    ghost var afterFirst := kernel.log;
    var second := Reconstruct(kernel, pair.second);
    StuckSplit(kernel.log, afterFirst, |old(kernel.log)|);
    if second.Err? {
      ghost var beforeRollback := kernel.log;
      ghost var leftover := Stuck(kernel.log, |afterFirst|);
      var rollback := Deassign(kernel, first.value);
      StuckSplit(kernel.log, beforeRollback, |old(kernel.log)|);
      ghost var n := |beforeRollback|;
      assert Stuck(kernel.log, |old(kernel.log)|) ==
             leftover + Survivors(first.value, kernel.log[n].ok, kernel.log[n + 1].ok);
      RollbackNamed(second.error, first.value, kernel.log[n].ok, kernel.log[n + 1].ok, leftover);
      return Err(if rollback.Ok? then second.error else RollbackFailed(second.error, rollback.error));
    }
    r := Ok(RegistrationPair(first.value, second.value));
  }

  /** What a failed acquisition leaves is an interrupt entry, and then its error says so. */
  lemma LeftoverNamed(error: Error, first: Registrations, leftover: set<Registration>)
    requires Single(error)
    requires forall e :: e in leftover ==> e.IrqFd?
    requires error.CleanupIrqfdFailed? <==> leftover != {}
    ensures AllNamed(error, first, leftover) && !(first.Entries() <= leftover)
  {
    assert first.DoorbellEntry() in first.Entries();
  }

  lemma RollbackNamed(error: Error, first: Registrations, d: bool, i: bool, leftover: set<Registration>)
    requires Single(error)
    requires forall e :: e in leftover ==> e.IrqFd? && e !in first.Entries()
    requires error.CleanupIrqfdFailed? <==> leftover != {}
    ensures var rollback := RemovalResult(d, i);
            var stuck := leftover + Survivors(first, d, i);
            AllNamed(if rollback.Ok? then error else RollbackFailed(error, rollback.error), first, stuck)
            <==> !(first.Entries() <= stuck)
  {
    var stuck := leftover + Survivors(first, d, i);
    assert first.DoorbellEntry() in first.Entries() && first.IrqEntry() in first.Entries();
    assert first.DoorbellEntry() in stuck <==> !d;
    assert first.IrqEntry() in stuck <==> !i;
  }

  /** All four removals are attempted, second registration first, so an entry survives exactly when
      its own removal failed. The error follows from the four outcomes, and names every survivor
      if and only if no registration had both its removals fail. */
  method DeassignPair(kernel: Kernel, live: RegistrationPair) returns (r: Result<(), Error>)
    requires kernel.Valid() && live.Distinct()
    modifies kernel
    ensures kernel.Valid()
    ensures |kernel.log| == |old(kernel.log)| + 4 && old(kernel.log) <= kernel.log
    ensures var n := |old(kernel.log)|;
            && kernel.log[n].op == Remove(live.second.DoorbellEntry())
            && kernel.log[n + 1].op == Remove(live.second.IrqEntry())
            && kernel.log[n + 2].op == Remove(live.first.DoorbellEntry())
            && kernel.log[n + 3].op == Remove(live.first.IrqEntry())
            && r == PairResult(RemovalResult(kernel.log[n].ok, kernel.log[n + 1].ok),
                               RemovalResult(kernel.log[n + 2].ok, kernel.log[n + 3].ok))
    ensures kernel.registered == old(kernel.registered) - (live.Entries() - Stuck(kernel.log, |old(kernel.log)|))
    ensures r.Ok? <==> Stuck(kernel.log, |old(kernel.log)|) == {}
    ensures r.Err? ==>
              var stuck := Stuck(kernel.log, |old(kernel.log)|);
              AllNamed(r.error, live.first, stuck) <==>
                !(live.first.Entries() <= stuck) && !(live.second.Entries() <= stuck)
  {
    hide Stuck; hide AllNamed;
    var second := Deassign(kernel, live.second);
    ghost var between := kernel.log;
    var first := Deassign(kernel, live.first);
    StuckSplit(kernel.log, between, |old(kernel.log)|);
    ghost var n := |old(kernel.log)|;
    PairNamesSurvivors(live, kernel.log[n].ok, kernel.log[n + 1].ok, kernel.log[n + 2].ok, kernel.log[n + 3].ok);
    BothStuck(live, kernel.log[n].ok, kernel.log[n + 1].ok, kernel.log[n + 2].ok, kernel.log[n + 3].ok);
    match (second, first) {
      case (Ok(_), Ok(_)) => r := Ok(());
      case (Err(error), Ok(_)) => r := Err(error);
      case (Ok(_), Err(error)) => r := Err(error);
      case (Err(a), Err(b)) => r := Err(DeassignPairFailed(a, b));
    }
  }

  lemma BothStuck(live: RegistrationPair, d2: bool, i2: bool, d1: bool, i1: bool)
    requires live.Distinct()
    ensures var stuck := Survivors(live.second, d2, i2) + Survivors(live.first, d1, i1);
            && (live.first.Entries() <= stuck <==> !d1 && !i1)
            && (live.second.Entries() <= stuck <==> !d2 && !i2)
  {
    var stuck := Survivors(live.second, d2, i2) + Survivors(live.first, d1, i1);
    assert live.first.DoorbellEntry() in live.first.Entries() && live.first.IrqEntry() in live.first.Entries();
    assert live.second.DoorbellEntry() in live.second.Entries() && live.second.IrqEntry() in live.second.Entries();
    assert live.first.DoorbellEntry() in stuck <==> !d1;
    assert live.first.IrqEntry() in stuck <==> !i1;
    assert live.second.DoorbellEntry() in stuck <==> !d2;
    assert live.second.IrqEntry() in stuck <==> !i2;
  }
}
