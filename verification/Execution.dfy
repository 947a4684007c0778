/** Exit dispatch and the bounded run loop (src/vmexit.rs, src/execution.rs), driven by an
    arbitrary stream of KVM_RUN outcomes. */
module Execution {
  import opened Words
  import opened Vcpu
  import P = Pci
  import PortIo
  import M = Mmio

  datatype Report = Report(vcpuId: u16, exit: VcpuExit, registers: Registers)

  datatype Continuation = ServicedPortIo(io: P.PortIoExit) | ServicedMmio(access: M.MmioExit)

  datatype Disposition = Continue(continuation: Continuation) | Stopped(report: Report)

  predicate IsTerminal(exit: VcpuExit) { exit.Debug? || exit.Hlt? || exit.Shutdown? }

  // ---------------------------------------------------------------- trace-carrying diagnostics

  /** The eight diagnostics that carry the trace of completed exits. */
  predicate CarriesTrace(e: Error) {
    e.VmExit? && (e.exit.UnhandledExit? || e.exit.KvmUnknownExit? || e.exit.ExceptionExit? || e.exit.EntryFailure?
                  || e.exit.InternalErrorExit? || e.exit.InvalidInternalErrorDataCount?
                  || e.exit.UnsupportedSystemEvent? || e.exit.InvalidSystemEventDataCount?)
  }

  /** The exit reason a diagnostic speaks about. */
  function OwnReason(e: Error): u32
    requires CarriesTrace(e)
  {
    match e.exit
    case UnhandledExit(_, reason, _, _) => reason
    case KvmUnknownExit(_, _, _) => Reason(KvmUnknown)
    case ExceptionExit(_, _, _, _) => Reason(Exception)
    case EntryFailure(_, _, _, _) => Reason(FailEntry)
    case InternalErrorExit(_, _, _, _) => Reason(InternalError)
    case InvalidInternalErrorDataCount(_, _, _, _) => Reason(InternalError)
    case UnsupportedSystemEvent(_, _, _, _, _) => Reason(SystemEvent)
    case InvalidSystemEventDataCount(_, _, _) => Reason(SystemEvent)
  }

  function AttachTrace(e: Error, trace: seq<u32>): Error {
    match e
    case VmExit(UnhandledExit(id, reason, registers, _)) => VmExit(UnhandledExit(id, reason, registers, trace))
    case VmExit(KvmUnknownExit(id, hardware, _)) => VmExit(KvmUnknownExit(id, hardware, trace))
    case VmExit(ExceptionExit(id, exception, code, _)) => VmExit(ExceptionExit(id, exception, code, trace))
    case VmExit(EntryFailure(id, hardware, cpu, _)) => VmExit(EntryFailure(id, hardware, cpu, trace))
    case VmExit(InternalErrorExit(id, suberror, data, _)) => VmExit(InternalErrorExit(id, suberror, data, trace))
    case VmExit(InvalidInternalErrorDataCount(id, suberror, ndata, _)) =>
      VmExit(InvalidInternalErrorDataCount(id, suberror, ndata, trace))
    case VmExit(UnsupportedSystemEvent(id, eventType, words, registers, _)) =>
      VmExit(UnsupportedSystemEvent(id, eventType, words, registers, trace))
    case VmExit(InvalidSystemEventDataCount(id, ndata, _)) => VmExit(InvalidSystemEventDataCount(id, ndata, trace))
    case _ => e
  }

  /** Attaching replaces the trace of the eight diagnostics and nothing else of any error. */
  lemma AttachTraceExact(e: Error, trace: seq<u32>)
    ensures CarriesTrace(AttachTrace(e, trace)) <==> CarriesTrace(e)
    ensures CarriesTrace(e) ==> AttachTrace(e, trace).exit.exitReasons == trace
                                && OwnReason(AttachTrace(e, trace)) == OwnReason(e)
                                && AttachTrace(AttachTrace(e, trace), e.exit.exitReasons) == e
    ensures !CarriesTrace(e) ==> AttachTrace(e, trace) == e
  {
  }

  /** A diagnostic names the exit it was built for, with that exit as its whole trace. */
  lemma DiagnosticNamesExit(id: u16, area: seq<u8>, exit: VcpuExit, optionalData: bool, registers: Option<Registers>)
    requires |area| >= REQUIRED_SIZE && FromRaw(ExitReason(area)) == exit
    requires !exit.Io? && !exit.Mmio? && !IsTerminal(exit)
    ensures var e := Diagnostic(id, area, exit, optionalData, registers);
            && (CarriesTrace(e) ==> OwnReason(e) == Reason(exit) && e.exit.exitReasons == [Reason(exit)])
            && (!CarriesTrace(e) ==> e == GetRegistersFailed)
  {
  }

  // ---------------------------------------------------------------- one exit

  /** What of a vCPU never changes: its identity, its capability and the size of its run area. */
  datatype Setup = Setup(id: u16, optionalData: bool, size: nat) {
    predicate Valid() { REQUIRED_SIZE <= size < U64_LIMIT }
  }

  datatype Devices = Devices(ports: PortIo.PortState, bus: M.BusState)

  /** How servicing an exit turns out: the disposition, the devices and the run area. */
  datatype Outcome = Outcome(result: Result<Disposition, Error>, devices: Devices, area: seq<u8>)

  function PortOutcome(v: Setup, area: seq<u8>, d: Devices): Outcome
    requires v.Valid() && |area| == v.size
  {
    match PortIoExitOf(v.id, area)
    case Err(error) => Outcome(Err(error), d, area)
    case Ok(io) =>
      var (ports, service) := PortIo.Service(d.ports, io);
      match service
      case Err(error) => Outcome(Err(PortIoFault(error)), d.(ports := ports), area)
      case Ok(Wrote) => Outcome(Ok(Continue(ServicedPortIo(io))), d.(ports := ports), area)
      case Ok(Response(bytes)) =>
        match CheckedIoResponseRange(v.id, RunIo(area), |area|, |bytes|)
        case Err(error) => Outcome(Err(error), d.(ports := ports), area)
        case Ok(at) => Outcome(Ok(Continue(ServicedPortIo(io))), d.(ports := ports), Patch(area, at, bytes))
  }

  function MmioOutcome(v: Setup, area: seq<u8>, d: Devices, reply: M.VirtioReply): Outcome
    requires v.Valid() && |area| == v.size
  {
    match MmioExitOf(v.id, area)
    case Err(error) => Outcome(Err(error), d, area)
    case Ok(access) =>
      var (bus, service) := M.Dispatch(d.bus, access, reply);
      match service
      case Err(error) => Outcome(Err(MmioFault(error)), d.(bus := bus), area)
      case Ok(Written) => Outcome(Ok(Continue(ServicedMmio(access))), d.(bus := bus), area)
      case Ok(ReadBack(bytes)) =>
        match CheckedMmioResponse(v.id, area, |bytes|)
        case Err(error) => Outcome(Err(error), d.(bus := bus), area)
        case Ok(_) => Outcome(Ok(Continue(ServicedMmio(access))), d.(bus := bus), Patch(area, MMIO_DATA_AT, bytes))
  }

  function StopOutcome(v: Setup, exit: VcpuExit, step: KvmStep): Result<Disposition, Error> {
    if step.registers.None? then Err(GetRegistersFailed) else Ok(Stopped(Report(v.id, exit, step.registers.value)))
  }

  function OutcomeOf(v: Setup, area: seq<u8>, d: Devices, step: KvmStep): Outcome
    requires v.Valid() && |area| == v.size
  {
    var exit := FromRaw(ExitReason(area));
    if exit.Io? then PortOutcome(v, area, d)
    else if exit.Mmio? then MmioOutcome(v, area, d, step.virtio)
    else if IsTerminal(exit) then Outcome(StopOutcome(v, exit, step), d, area)
    else Outcome(Err(Diagnostic(v.id, area, exit, v.optionalData, step.registers)), d, area)
  }

  function SetupOf(vcpu: VcpuState): Setup {
    Setup(vcpu.id, vcpu.optionalData, vcpu.run.Length)
  }

  method DispatchPortIo(vcpu: VcpuState, portIo: PortIo.PortIoBus, ghost bus: M.BusState)
    returns (r: Result<Disposition, Error>)
    requires vcpu.Valid() && ExitReason(vcpu.Area()) == Reason(Io)
    modifies vcpu.run, portIo
    ensures Outcome(r, Devices(portIo.State(), bus), vcpu.Area())
         == old(PortOutcome(SetupOf(vcpu), vcpu.Area(), Devices(portIo.State(), bus)))
  {
    hide PortIo.Service; hide CheckedIoResponseRange; hide RunIo; hide PortIoExitOf; hide ExitReason;
    var io := PortIoExitOf(vcpu.id, vcpu.run[..]);
    if io.Err? { return Err(io.error); }
    var service := portIo.DispatchIo(io.value);
    if service.Err? { return Err(PortIoFault(service.error)); }
    if service.value.Response? {
      var written := vcpu.WritePortIoInput(service.value.bytes);
      if written.Err? { return Err(written.error); }
    }
    return Ok(Continue(ServicedPortIo(io.value)));
  }

  method DispatchMmio(vcpu: VcpuState, mmio: M.MmioBus, reply: M.VirtioReply, ghost ports: PortIo.PortState)
    returns (r: Result<Disposition, Error>)
    requires vcpu.Valid() && ExitReason(vcpu.Area()) == Reason(Mmio)
    modifies vcpu.run, mmio
    ensures Outcome(r, Devices(ports, mmio.State()), vcpu.Area())
         == old(MmioOutcome(SetupOf(vcpu), vcpu.Area(), Devices(ports, mmio.State()), reply))
  {
    hide M.Dispatch; hide CheckedMmioResponse; hide MmioExitOf; hide ExitReason;
    var access := MmioExitOf(vcpu.id, vcpu.run[..]);
    if access.Err? { return Err(access.error); }
    var service := mmio.DispatchExit(access.value, reply);
    if service.Err? { return Err(MmioFault(service.error)); }
    if service.value.ReadBack? {
      var written := vcpu.WriteMmioReadResponse(service.value.bytes);
      if written.Err? { return Err(written.error); }
    }
    return Ok(Continue(ServicedMmio(access.value)));
  }

  /** Services one exit, exactly as `OutcomeOf` says. */
  method DispatchVcpuExit(vcpu: VcpuState, exit: VcpuExit, portIo: PortIo.PortIoBus, mmio: M.MmioBus, step: KvmStep)
    returns (r: Result<Disposition, Error>)
    requires vcpu.Valid() && exit == FromRaw(ExitReason(vcpu.Area()))
    modifies vcpu.run, portIo, mmio
    ensures Outcome(r, Devices(portIo.State(), mmio.State()), vcpu.Area())
         == old(OutcomeOf(SetupOf(vcpu), vcpu.Area(), Devices(portIo.State(), mmio.State()), step))
  {
    hide PortOutcome; hide MmioOutcome; hide Diagnostic; hide ExitReason;
    ReasonRoundTrip(ExitReason(vcpu.Area()));
    match exit {
      case Io => r := DispatchPortIo(vcpu, portIo, mmio.State());
      case Mmio => r := DispatchMmio(vcpu, mmio, step.virtio, portIo.State());
      case Debug => r := StopOutcome(SetupOf(vcpu), exit, step);
      case Hlt => r := StopOutcome(SetupOf(vcpu), exit, step);
      case Shutdown => r := StopOutcome(SetupOf(vcpu), exit, step);
      case _ => return Err(Diagnostic(vcpu.id, vcpu.run[..], exit, vcpu.optionalData, step.registers));
    }
  }

  // ---------------------------------------------------------------- what servicing an exit can do

  /** The errors a response could only cause if decoding, bus and response disagreed. */
  predicate ResponseMismatch(e: Error) {
    || (e.VmExit? && (e.exit.IoResponseForNonInput? || e.exit.InvalidIoResponseLength?
                      || e.exit.MmioResponseForWrite? || e.exit.InvalidMmioResponseLength?))
    || (e.PortIoFault? && e.port.InvalidOutputPayload?)
  }

  /** The errors only the run loop itself raises. */
  predicate LoopError(e: Error) { e.KvmRunFailed? || (e.VmExit? && e.exit.ExitBudgetExhausted?) }

  /** A decoded port exit whose answer fits the run area: the response the bus gives for it is
      accepted by the response check. */
  lemma PortResponseAccepted(id: u16, area: seq<u8>, s: PortIo.PortState)
    requires REQUIRED_SIZE <= |area| < U64_LIMIT && PortIoExitOf(id, area).Ok?
    ensures var io := PortIoExitOf(id, area).value;
            var r := PortIo.Service(s, io).1;
            && PortIo.WellFormed(io)
            && (r.Ok? && r.value.Response? ==>
                  |r.value.bytes| == RunIo(area).Length()
                  && CheckedIoResponseRange(id, RunIo(area), |area|, |r.value.bytes|) == Ok(RunIo(area).dataOffset))
            && !(r.Err? && r.error.InvalidOutputPayload?)
            && (r.Err? ==> PortIo.Service(s, io).0 == s)
  {
    PortIo.ResponseFits(s, PortIoExitOf(id, area).value);
  }

  /** Likewise for MMIO: a read is answered with exactly as many bytes as it asks for. */
  lemma MmioResponseAccepted(id: u16, area: seq<u8>, s: M.BusState, reply: M.VirtioReply)
    requires |area| >= REQUIRED_SIZE && MmioExitOf(id, area).Ok?
    ensures var access := MmioExitOf(id, area).value;
            var r := M.Dispatch(s, access, reply).1;
            && (r.Ok? ==> (r.value.ReadBack? <==> access.direction.Read?))
            && (r.Ok? && r.value.ReadBack? ==>
                  |r.value.bytes| == access.length && CheckedMmioResponse(id, area, |r.value.bytes|).Ok?)
            && (r.Err? ==> M.Dispatch(s, access, reply).0 == s)
  {
    var access := MmioExitOf(id, area).value;
    match M.FindByte(s.byteDevices, access.address)
    case Some(i) =>
      M.HandleEffect(s.byteDevices[i], access);
      assert s.byteDevices[i := s.byteDevices[i]] == s.byteDevices;
    case None =>
  }

  /** A port exit either fails and changes nothing, or is serviced: after an output the area is what
      it was, after an input the data range holds the bus's answer and the rest is what it was. No
      response is ever refused. */
  lemma PortOutcomeExact(v: Setup, area: seq<u8>, d: Devices)
    requires v.Valid() && |area| == v.size
    ensures var o := PortOutcome(v, area, d);
            var io := RunIo(area);
            && |o.area| == |area| && o.devices.bus == d.bus
            && (o.result.Err? ==> o.devices == d && o.area == area
                                  && !ResponseMismatch(o.result.error) && !LoopError(o.result.error)
                                  && !CarriesTrace(o.result.error))
            && (o.result.Ok? ==>
                  && o.result.value.Continue? && o.result.value.continuation.ServicedPortIo?
                  && PortIoExitOf(v.id, area) == Ok(o.result.value.continuation.io)
                  && PortIo.Service(d.ports, o.result.value.continuation.io).1.Ok?
                  && o.devices.ports == PortIo.Service(d.ports, o.result.value.continuation.io).0
                  && SameOutside(area, o.area, io.dataOffset, io.dataOffset + io.Length())
                  && (o.result.value.continuation.io.direction.Out? ==> o.area == area)
                  && (o.result.value.continuation.io.direction.In? ==>
                        && io.dataOffset + io.Length() <= |area|
                        && PortIo.Service(d.ports, o.result.value.continuation.io).1
                        == Ok(PortIo.Response(o.area[io.dataOffset..io.dataOffset + io.Length()]))))
  {
    hide PortIo.Service; hide RunIo;
    if PortIoExitOf(v.id, area).Ok? {
      PortResponseAccepted(v.id, area, d.ports);
      PortIo.ResponseFits(d.ports, PortIoExitOf(v.id, area).value);
    }
    DecodeErrors(v.id, area);
    hide PortIoExitOf; hide CheckedIoResponseRange;
  }

  lemma DecodeErrors(id: u16, area: seq<u8>)
    requires REQUIRED_SIZE <= |area| < U64_LIMIT
    ensures var r := PortIoExitOf(id, area);
            r.Err? ==> !ResponseMismatch(r.error) && !LoopError(r.error) && !CarriesTrace(r.error)
    ensures var r := MmioExitOf(id, area);
            r.Err? ==> !ResponseMismatch(r.error) && !LoopError(r.error) && !CarriesTrace(r.error)
  {
    hide RunIo; hide U32At; hide U64At;
  }

  /** The same for an MMIO exit and the data bytes of its payload, as many as the access has. */
  lemma MmioOutcomeExact(v: Setup, area: seq<u8>, d: Devices, reply: M.VirtioReply)
    requires v.Valid() && |area| == v.size
    ensures var o := MmioOutcome(v, area, d, reply);
            && |o.area| == |area| && o.devices.ports == d.ports
            && (o.result.Err? ==> o.devices == d && o.area == area
                                  && !ResponseMismatch(o.result.error) && !LoopError(o.result.error)
                                  && !CarriesTrace(o.result.error))
            && (o.result.Ok? ==>
                  && o.result.value.Continue? && o.result.value.continuation.ServicedMmio?
                  && MmioExitOf(v.id, area) == Ok(o.result.value.continuation.access)
                  && M.Dispatch(d.bus, o.result.value.continuation.access, reply).1.Ok?
                  && o.devices.bus == M.Dispatch(d.bus, o.result.value.continuation.access, reply).0
                  && SameOutside(area, o.area, 40, 40 + o.result.value.continuation.access.length)
                  && (o.result.value.continuation.access.direction.Write? ==> o.area == area)
                  && (o.result.value.continuation.access.direction.Read? ==>
                        M.Dispatch(d.bus, o.result.value.continuation.access, reply).1
                        == Ok(M.ReadBack(o.area[40..40 + o.result.value.continuation.access.length]))))
  {
    hide M.Dispatch;
    if MmioExitOf(v.id, area).Ok? { MmioResponseAccepted(v.id, area, d.bus, reply); }
    DecodeErrors(v.id, area);
    hide MmioExitOf; hide U64At; hide U32At; hide ExitReason;
  }

  /** Whatever the exit: a failure leaves devices and run area alone and, when it is a diagnostic,
      names the exit it was built for; only serviced exits continue, only terminal ones stop. */
  lemma OutcomeExact(v: Setup, area: seq<u8>, d: Devices, step: KvmStep)
    requires v.Valid() && |area| == v.size
    ensures var o, exit := OutcomeOf(v, area, d, step), FromRaw(ExitReason(area));
            && (o.result.Err? ==> o.devices == d && o.area == area
                                  && !ResponseMismatch(o.result.error) && !LoopError(o.result.error))
            && (o.result.Err? && CarriesTrace(o.result.error) ==>
                  OwnReason(o.result.error) == Reason(exit) && o.result.error.exit.exitReasons == [Reason(exit)])
            && (o.result.Ok? && o.result.value.Continue? ==>
                  if o.result.value.continuation.ServicedPortIo? then exit.Io? else exit.Mmio?)
            && (o.result.Ok? && o.result.value.Stopped? <==> IsTerminal(exit) && step.registers.Some?)
            && (o.result.Ok? && o.result.value.Stopped? ==>
                  o.devices == d && o.result.value.report == Report(v.id, exit, step.registers.value))
  {
    hide PortOutcome; hide MmioOutcome; hide PortIo.Service; hide M.Dispatch; hide PortIoExitOf; hide MmioExitOf;
    hide RunIo;
    hide Diagnostic; hide OwnReason; hide ExitReason;
    var exit := FromRaw(ExitReason(area));
    if exit.Io? {
      PortOutcomeExact(v, area, d);
    } else if exit.Mmio? {
      MmioOutcomeExact(v, area, d, step.virtio);
    } else if !IsTerminal(exit) {
      DiagnosticNamesExit(v.id, area, exit, v.optionalData, step.registers);
      DiagnosticKind(v.id, area, exit, v.optionalData, step.registers);
    }
  }

  lemma DiagnosticKind(id: u16, area: seq<u8>, exit: VcpuExit, optionalData: bool, registers: Option<Registers>)
    requires |area| >= REQUIRED_SIZE && FromRaw(ExitReason(area)) == exit
    requires !exit.Io? && !exit.Mmio? && !IsTerminal(exit)
    ensures var e := Diagnostic(id, area, exit, optionalData, registers);
            !ResponseMismatch(e) && !LoopError(e)
  {
    hide ExitReason; hide U32At; hide U64At; hide DataWords;
  }

  // ---------------------------------------------------------------- the budget

  datatype ExitBudget = ExitBudget(vcpuId: u16, limit: u32, completed: nat, lastExitReason: Option<u32>) {

    /** The budget and the trace are in step. */
    predicate Matches(trace: seq<u32>) {
      |trace| == completed <= limit
      && lastExitReason == (if trace == [] then None else Some(trace[|trace| - 1]))
    }

    function EnsureRunAllowed(trace: seq<u32>): Result<(), Error> {
      if completed < limit then Ok(())
      else Err(VmExit(ExitBudgetExhausted(vcpuId, limit, completed, lastExitReason, trace)))
    }

    function Record(reason: u32): ExitBudget
      requires completed < limit
    {
      this.(completed := completed + 1, lastExitReason := Some(reason))
    }
  }

  // ---------------------------------------------------------------- the loop

  datatype ExecutionResult = ExecutionResult(report: Report, ioExits: seq<P.PortIoExit>, mmioExits: seq<M.MmioExit>,
                                             exitReasons: seq<u32>, completedExits: nat)

  /** The run area a successful outcome leaves behind. */
  function AreaOf(step: KvmStep, size: nat): (area: seq<u8>)
    ensures |area| == size
  {
    seq<u8>(size, i requires 0 <= i => step.area(i))
  }

  /** The exit reasons of the first `n` outcomes of a stream. */
  function Trace(exits: nat -> KvmStep, n: nat, size: nat): (trace: seq<u32>)
    requires size >= REQUIRED_SIZE
    ensures |trace| == n
  {
    seq<u32>(n, i requires 0 <= i < n => ExitReason(AreaOf(exits(i), size)))
  }

  function LastOf(trace: seq<u32>): Option<u32> {
    if trace == [] then None else Some(trace[|trace| - 1])
  }

  datatype RunResult = RunResult(result: Result<ExecutionResult, Error>, devices: Devices, runs: nat)

  /** The loop as recursion: from the `n`-th outcome of the stream on, with what was serviced so
      far. Budget and trace need no variables: they are `n` and the stream's first reasons. */
  function RunFrom(v: Setup, exits: nat -> KvmStep, limit: u32, n: nat, d: Devices,
                   ios: seq<P.PortIoExit>, accesses: seq<M.MmioExit>): RunResult
    requires v.Valid() && n <= limit
    decreases limit - n
  {
    if n == limit then
      var trace := Trace(exits, n, v.size);
      RunResult(Err(VmExit(ExitBudgetExhausted(v.id, limit, n, LastOf(trace), trace))), d, n)
    else if !exits(n).succeeds then RunResult(Err(KvmRunFailed), d, n + 1)
    else
      var o := OutcomeOf(v, AreaOf(exits(n), v.size), d, exits(n));
      var trace := Trace(exits, n + 1, v.size);
      match o.result
      case Err(error) => RunResult(Err(AttachTrace(error, trace)), o.devices, n + 1)
      case Ok(Stopped(report)) => RunResult(Ok(ExecutionResult(report, ios, accesses, trace, n + 1)), o.devices, n + 1)
      case Ok(Continue(ServicedPortIo(io))) => RunFrom(v, exits, limit, n + 1, o.devices, ios + [io], accesses)
      case Ok(Continue(ServicedMmio(access))) => RunFrom(v, exits, limit, n + 1, o.devices, ios, accesses + [access])
  }

  /** The recursion ends where the budget does, or at a failed run. */
  lemma RunEnds(v: Setup, exits: nat -> KvmStep, limit: u32, n: nat, d: Devices,
                ios: seq<P.PortIoExit>, accesses: seq<M.MmioExit>)
    requires v.Valid() && n <= limit && (n == limit || !exits(n).succeeds)
    ensures var trace := Trace(exits, n, v.size);
            RunFrom(v, exits, limit, n, d, ios, accesses) ==
            if n == limit then RunResult(Err(VmExit(ExitBudgetExhausted(v.id, limit, n, LastOf(trace), trace))), d, n)
            else RunResult(Err(KvmRunFailed), d, n + 1)
  {
    hide OutcomeOf; hide AttachTrace; hide Trace; hide AreaOf;
  }

  /** One round of the recursion after a completed run. */
  lemma RunStep(v: Setup, exits: nat -> KvmStep, limit: u32, n: nat, d: Devices,
                ios: seq<P.PortIoExit>, accesses: seq<M.MmioExit>)
    requires v.Valid() && n < limit && exits(n).succeeds
    ensures var o := OutcomeOf(v, AreaOf(exits(n), v.size), d, exits(n));
            var trace := Trace(exits, n + 1, v.size);
            RunFrom(v, exits, limit, n, d, ios, accesses) ==
            match o.result
            case Err(error) => RunResult(Err(AttachTrace(error, trace)), o.devices, n + 1)
            case Ok(Stopped(report)) =>
              RunResult(Ok(ExecutionResult(report, ios, accesses, trace, n + 1)), o.devices, n + 1)
            case Ok(Continue(ServicedPortIo(io))) => RunFrom(v, exits, limit, n + 1, o.devices, ios + [io], accesses)
            case Ok(Continue(ServicedMmio(access))) =>
              RunFrom(v, exits, limit, n + 1, o.devices, ios, accesses + [access])
  {
    hide OutcomeOf; hide AttachTrace; hide Trace; hide AreaOf;
  }

  /** The run loop computes `RunFrom` for every stream and budget, making as many runs. */
  method RunVcpuUntilStopped(vcpu: VcpuState, portIo: PortIo.PortIoBus, mmio: M.MmioBus, exitBudget: u32,
                             exits: nat -> KvmStep)
    returns (r: Result<ExecutionResult, Error>, runs: nat)
    requires vcpu.Valid()
    modifies vcpu.run, portIo, mmio
    ensures RunResult(r, Devices(portIo.State(), mmio.State()), runs)
         == RunFrom(SetupOf(vcpu), exits, exitBudget, 0, old(Devices(portIo.State(), mmio.State())), [], [])
  {
    hide OutcomeOf; hide AttachTrace; hide ExitReason; hide AreaOf; hide Trace;
    ghost var start := Devices(portIo.State(), mmio.State());
    var budget := ExitBudget(vcpu.id, exitBudget, 0, None);
    var ioExits: seq<P.PortIoExit> := [];
    var mmioExits: seq<M.MmioExit> := [];
    var exitReasons: seq<u32> := [];
    runs := 0;
    while true
      invariant budget.vcpuId == vcpu.id && budget.limit == exitBudget
      invariant budget.Matches(exitReasons) && runs == budget.completed
      invariant exitReasons == Trace(exits, runs, vcpu.run.Length)
      invariant RunFrom(SetupOf(vcpu), exits, exitBudget, runs, Devices(portIo.State(), mmio.State()),
                        ioExits, mmioExits)
             == RunFrom(SetupOf(vcpu), exits, exitBudget, 0, start, [], [])
      decreases budget.limit - budget.completed
    {
      var allowed := budget.EnsureRunAllowed(exitReasons);
      if allowed.Err? { return Err(allowed.error), runs; }
      var run;
      run, budget, exitReasons := CompleteRun(vcpu, budget, exitReasons, exits, runs);
      var step := exits(runs);
      runs := runs + 1;
      if run.Err? { return Err(run.error), runs; }
      var disposition := DispatchVcpuExit(vcpu, run.value, portIo, mmio, step);
      if disposition.Err? { return Err(AttachTrace(disposition.error, exitReasons)), runs; }
      match disposition.value {
        case Continue(ServicedPortIo(io)) => ioExits := ioExits + [io];
        case Continue(ServicedMmio(access)) => mmioExits := mmioExits + [access];
        case Stopped(report) =>
          return Ok(ExecutionResult(report, ioExits, mmioExits, exitReasons, budget.completed)), runs;
      }
    }
  }

  /** One KVM_RUN and, when it succeeds, its entry in the budget and the trace. */
  method CompleteRun(vcpu: VcpuState, budget: ExitBudget, exitReasons: seq<u32>, exits: nat -> KvmStep, n: nat)
    returns (run: Result<VcpuExit, Error>, recorded: ExitBudget, trace: seq<u32>)
    requires vcpu.Valid() && budget.completed < budget.limit && budget.Matches(exitReasons)
    requires n == budget.completed && exitReasons == Trace(exits, n, vcpu.run.Length)
    modifies vcpu.run
    ensures recorded.vcpuId == budget.vcpuId && recorded.limit == budget.limit
    ensures run.Ok? <==> exits(n).succeeds
    ensures run.Err? ==> run.error == KvmRunFailed && recorded == budget && trace == exitReasons
    ensures run.Ok? ==>
              && vcpu.Area() == AreaOf(exits(n), vcpu.run.Length)
              && run.value == FromRaw(ExitReason(vcpu.Area()))
              && recorded.completed == n + 1 && recorded.Matches(trace)
              && trace == Trace(exits, n + 1, vcpu.run.Length)
  {
    recorded, trace := budget, exitReasons;
    run := vcpu.RunOnce(exits(n));
    if run.Err? { return; }
    ReasonRoundTrip(ExitReason(vcpu.Area()));
    assert vcpu.Area() == AreaOf(exits(n), vcpu.run.Length);
    recorded := budget.Record(Reason(run.value));
    trace := exitReasons + [Reason(run.value)];
  }

  // ---------------------------------------------------------------- accounting

  predicate OnlyServiced(trace: seq<u32>) {
    forall i :: 0 <= i < |trace| ==> trace[i] == Reason(Io) || trace[i] == Reason(Mmio)
  }

  /** What budget, trace and lists add up to, however the run ends. */
  ghost predicate Accounted(v: Setup, exits: nat -> KvmStep, limit: u32, end: RunResult)
    requires v.Valid()
  {
    && end.runs <= limit
    && match end.result {
         case Ok(done) =>
           && end.runs >= 1 && done.exitReasons == Trace(exits, end.runs, v.size)
           && done.completedExits == end.runs == |done.ioExits| + |done.mmioExits| + 1
           && OnlyServiced(done.exitReasons[..end.runs - 1])
           && IsTerminal(done.report.exit) && done.exitReasons[end.runs - 1] == Reason(done.report.exit)
         case Err(error) =>
           && !ResponseMismatch(error)
           && (error.KvmRunFailed? ==> end.runs >= 1 && !exits(end.runs - 1).succeeds)
           && (CarriesTrace(error) ==>
                 && end.runs >= 1 && error.exit.exitReasons == Trace(exits, end.runs, v.size)
                 && OnlyServiced(error.exit.exitReasons[..end.runs - 1])
                 && error.exit.exitReasons[end.runs - 1] == OwnReason(error))
           && (error.VmExit? && error.exit.ExitBudgetExhausted? ==>
                 && end.runs == limit == error.exit.budget == error.exit.completed
                 && error.exit.exitReasons == Trace(exits, limit, v.size)
                 && OnlyServiced(error.exit.exitReasons)
                 && error.exit.lastExitReason == LastOf(error.exit.exitReasons))
       }
  }

  /** At most `limit` runs, a trace of exactly the completed ones, only serviced exits before the
      last, and as many list entries as serviced exits; exhaustion means the whole budget was
      used, and every diagnostic carries the whole trace, ending in its own reason. */
  lemma {:induction false} RunAccounted(v: Setup, exits: nat -> KvmStep, limit: u32, n: nat, d: Devices,
                                        ios: seq<P.PortIoExit>, accesses: seq<M.MmioExit>)
    requires v.Valid() && n <= limit && |ios| + |accesses| == n && OnlyServiced(Trace(exits, n, v.size))
    ensures Accounted(v, exits, limit, RunFrom(v, exits, limit, n, d, ios, accesses))
    decreases limit - n
  {
    hide RunFrom; hide OutcomeOf; hide AttachTrace; hide Trace; hide AreaOf; hide ExitReason; hide Accounted;
    if n == limit || !exits(n).succeeds {
      RunEnds(v, exits, limit, n, d, ios, accesses);
      EndAccounted(v, exits, limit, n, d);
    } else {
      var area := AreaOf(exits(n), v.size);
      var o := OutcomeOf(v, area, d, exits(n));
      RunStep(v, exits, limit, n, d, ios, accesses);
      OutcomeExact(v, area, d, exits(n));
      TraceStep(exits, n, v.size);
      match o.result
      case Err(error) => FailureAccounted(v, exits, limit, n, error, o.devices);
      case Ok(Stopped(report)) => StopAccounted(v, exits, limit, n, report, ios, accesses, o.devices);
      case Ok(Continue(ServicedPortIo(io))) => RunAccounted(v, exits, limit, n + 1, o.devices, ios + [io], accesses);
      case Ok(Continue(ServicedMmio(access))) =>
        RunAccounted(v, exits, limit, n + 1, o.devices, ios, accesses + [access]);
    }
  }

  lemma EndAccounted(v: Setup, exits: nat -> KvmStep, limit: u32, n: nat, d: Devices)
    requires v.Valid() && n <= limit && OnlyServiced(Trace(exits, n, v.size))
    ensures var trace := Trace(exits, n, v.size);
            n == limit ==>
              Accounted(v, exits, limit,
                        RunResult(Err(VmExit(ExitBudgetExhausted(v.id, limit, n, LastOf(trace), trace))), d, n))
    ensures n < limit && !exits(n).succeeds ==> Accounted(v, exits, limit, RunResult(Err(KvmRunFailed), d, n + 1))
  {
    hide Trace;
  }

  lemma StopAccounted(v: Setup, exits: nat -> KvmStep, limit: u32, n: nat, report: Report,
                      ios: seq<P.PortIoExit>, accesses: seq<M.MmioExit>, d: Devices)
    requires v.Valid() && n < limit && |ios| + |accesses| == n && OnlyServiced(Trace(exits, n + 1, v.size)[..n])
    requires IsTerminal(report.exit) && Trace(exits, n + 1, v.size)[n] == Reason(report.exit)
    ensures var trace := Trace(exits, n + 1, v.size);
            Accounted(v, exits, limit, RunResult(Ok(ExecutionResult(report, ios, accesses, trace, n + 1)), d, n + 1))
  {
    hide Trace;
  }

  lemma TraceStep(exits: nat -> KvmStep, n: nat, size: nat)
    requires size >= REQUIRED_SIZE
    ensures Trace(exits, n + 1, size)[..n] == Trace(exits, n, size)
    ensures Trace(exits, n + 1, size)[n] == ExitReason(AreaOf(exits(n), size))
    ensures Trace(exits, n + 1, size)[n] == Reason(FromRaw(ExitReason(AreaOf(exits(n), size))))
    ensures var reason := ExitReason(AreaOf(exits(n), size));
            OnlyServiced(Trace(exits, n, size)) && (FromRaw(reason).Io? || FromRaw(reason).Mmio?) ==>
              OnlyServiced(Trace(exits, n + 1, size))
  {
    hide ExitReason;
    ReasonRoundTrip(ExitReason(AreaOf(exits(n), size)));
  }

  /** A failed exit closes the trace with its own reason. */
  lemma FailureAccounted(v: Setup, exits: nat -> KvmStep, limit: u32, n: nat, error: Error, d: Devices)
    requires v.Valid() && n < limit && OnlyServiced(Trace(exits, n + 1, v.size)[..n])
    requires !ResponseMismatch(error) && !LoopError(error)
    requires CarriesTrace(error) ==> OwnReason(error) == Trace(exits, n + 1, v.size)[n]
    ensures Accounted(v, exits, limit, RunResult(Err(AttachTrace(error, Trace(exits, n + 1, v.size))), d, n + 1))
  {
    AttachTraceExact(error, Trace(exits, n + 1, v.size));
    AttachKeepsKind(error, Trace(exits, n + 1, v.size));
    hide AttachTrace; hide OwnReason; hide Trace;
  }

  lemma AttachKeepsKind(e: Error, trace: seq<u32>)
    requires !ResponseMismatch(e) && !LoopError(e)
    ensures !ResponseMismatch(AttachTrace(e, trace)) && !LoopError(AttachTrace(e, trace))
  {
  }

  // ---------------------------------------------------------------- device logs

  /** The write data a list of serviced accesses carries into a range, in order. */
  function WritesTo(accesses: seq<M.MmioExit>, range: M.Range): seq<u8> {
    if accesses == [] then []
    else
      var access := accesses[|accesses| - 1];
      WritesTo(accesses[..|accesses| - 1], range)
      + (if access.direction.Write? && range.Handles(access.address) then access.writeData else [])
  }

  /** An accepted access extends the log of exactly the device that owns its address. */
  lemma WriteLogged(s: M.BusState, access: M.MmioExit, reply: M.VirtioReply, i: nat)
    requires M.Valid(s) && i < |s.byteDevices| && M.Dispatch(s, access, reply).1.Ok?
    ensures var s' := M.Dispatch(s, access, reply).0;
            && |s'.byteDevices| == |s.byteDevices| && s'.byteDevices[i].Span() == s.byteDevices[i].Span()
            && s'.byteDevices[i].writes
            == s.byteDevices[i].writes
               + (if access.direction.Write? && s.byteDevices[i].Handles(access.address) then access.writeData else [])
  {
    M.DispatchFrame(s, access, reply, i);
    if s.byteDevices[i].Handles(access.address) {
      M.RangesLayout(s);
      M.DispatchFindsOwner(s, access.address, i);
      M.HandleEffect(s.byteDevices[i], access);
    }
  }

  /** Every device log is what it was, followed by the writes of the serviced accesses in the
      device's range. */
  ghost predicate LogsAgree(before: M.BusState, after: M.BusState, accesses: seq<M.MmioExit>) {
    |after.byteDevices| == |before.byteDevices|
    && forall i :: 0 <= i < |before.byteDevices| ==>
         && after.byteDevices[i].Span() == before.byteDevices[i].Span()
         && after.byteDevices[i].writes
         == before.byteDevices[i].writes + WritesTo(accesses, before.byteDevices[i].Span())
  }

  ghost predicate DebugAgrees(before: PortIo.PortState, after: PortIo.PortState, ios: seq<P.PortIoExit>) {
    before.debugPort.Some? ==>
      after.debugPort.Some?
      && after.debugPort.value.bytes == before.debugPort.value.bytes + PortIo.DebugBytes(ios)
  }

  lemma LogsStep(before: M.BusState, now: M.BusState, accesses: seq<M.MmioExit>, access: M.MmioExit,
                 reply: M.VirtioReply)
    requires M.Valid(now) && LogsAgree(before, now, accesses) && M.Dispatch(now, access, reply).1.Ok?
    ensures LogsAgree(before, M.Dispatch(now, access, reply).0, accesses + [access])
  {
    assert (accesses + [access])[..|accesses|] == accesses;
    forall i | 0 <= i < |before.byteDevices|
      ensures var after := M.Dispatch(now, access, reply).0;
              && |after.byteDevices| == |before.byteDevices|
              && after.byteDevices[i].Span() == before.byteDevices[i].Span()
              && after.byteDevices[i].writes
              == before.byteDevices[i].writes + WritesTo(accesses + [access], before.byteDevices[i].Span())
    {
      WriteLogged(now, access, reply, i);
    }
    M.DispatchKeepsRanges(now, access, reply);
    DispatchKeepsCount(now, access, reply);
  }

  lemma DispatchKeepsCount(s: M.BusState, access: M.MmioExit, reply: M.VirtioReply)
    ensures |M.Dispatch(s, access, reply).0.byteDevices| == |s.byteDevices|
  {
  }

  lemma DebugExtends(before: PortIo.PortState, now: PortIo.PortState, io: P.PortIoExit, ios: seq<P.PortIoExit>)
    requires DebugAgrees(before, now, ios) && PortIo.Service(now, io).1.Ok?
    ensures DebugAgrees(before, PortIo.Service(now, io).0, ios + [io])
  {
    if before.debugPort.Some? {
      PortIo.DebugStep(now, io);
      assert (ios + [io])[..|ios|] == ios;
    }
  }

  lemma NothingServiced(d: Devices)
    ensures DebugAgrees(d.ports, d.ports, []) && LogsAgree(d.bus, d.bus, [])
  {
  }

  /** Wherever the run stands, the device logs are what they were at `start` plus the projections
      of what was serviced since. */
  ghost predicate LogsTrack(start: Devices, d: Devices, ios: seq<P.PortIoExit>, accesses: seq<M.MmioExit>) {
    M.Valid(d.bus) && DebugAgrees(start.ports, d.ports, ios) && LogsAgree(start.bus, d.bus, accesses)
  }

  lemma LogsTrackStep(start: Devices, v: Setup, area: seq<u8>, d: Devices, step: KvmStep,
                      ios: seq<P.PortIoExit>, accesses: seq<M.MmioExit>)
    requires v.Valid() && |area| == v.size && LogsTrack(start, d, ios, accesses)
    ensures var o := OutcomeOf(v, area, d, step);
            match o.result
            case Ok(Continue(ServicedPortIo(io))) => LogsTrack(start, o.devices, ios + [io], accesses)
            case Ok(Continue(ServicedMmio(access))) => LogsTrack(start, o.devices, ios, accesses + [access])
            case _ => LogsTrack(start, o.devices, ios, accesses)
  {
    var o := OutcomeOf(v, area, d, step);
    OutcomeExact(v, area, d, step);
    PortOutcomeExact(v, area, d);
    MmioOutcomeExact(v, area, d, step.virtio);
    hide PortOutcome; hide MmioOutcome; hide M.Dispatch; hide PortIo.Service; hide PortIoExitOf; hide MmioExitOf;
    hide RunIo; hide ExitReason; hide M.Valid; hide LogsAgree; hide DebugAgrees; hide Diagnostic;
    match o.result {
      case Ok(Continue(ServicedPortIo(io))) => DebugExtends(start.ports, d.ports, io, ios);
      case Ok(Continue(ServicedMmio(access))) =>
        M.DispatchKeepsRanges(d.bus, access, step.virtio);
        LogsStep(start.bus, d.bus, accesses, access, step.virtio);
      case _ =>
    }
  }

  // ---------------------------------------------------------------- the lists are the stream

  /** The port exits among the first `n` outcomes of a stream, decoded, in order. */
  function IosOf(v: Setup, exits: nat -> KvmStep, n: nat): seq<P.PortIoExit>
    requires v.Valid()
  {
    if n == 0 then []
    else
      var area := AreaOf(exits(n - 1), v.size);
      var io := PortIoExitOf(v.id, area);
      IosOf(v, exits, n - 1) + if FromRaw(ExitReason(area)).Io? && io.Ok? then [io.value] else []
  }

  /** The MMIO accesses among them. */
  function AccessesOf(v: Setup, exits: nat -> KvmStep, n: nat): seq<M.MmioExit>
    requires v.Valid()
  {
    if n == 0 then []
    else
      var area := AreaOf(exits(n - 1), v.size);
      var access := MmioExitOf(v.id, area);
      AccessesOf(v, exits, n - 1) + if FromRaw(ExitReason(area)).Mmio? && access.Ok? then [access.value] else []
  }

  lemma DecodedStep(v: Setup, exits: nat -> KvmStep, n: nat, d: Devices)
    requires v.Valid()
    ensures var o := OutcomeOf(v, AreaOf(exits(n), v.size), d, exits(n));
            match o.result
            case Ok(Continue(ServicedPortIo(io))) =>
              && IosOf(v, exits, n + 1) == IosOf(v, exits, n) + [io]
              && AccessesOf(v, exits, n + 1) == AccessesOf(v, exits, n)
            case Ok(Continue(ServicedMmio(access))) =>
              && IosOf(v, exits, n + 1) == IosOf(v, exits, n)
              && AccessesOf(v, exits, n + 1) == AccessesOf(v, exits, n) + [access]
            case _ => true
  {
    var area := AreaOf(exits(n), v.size);
    OutcomeExact(v, area, d, exits(n));
    PortOutcomeExact(v, area, d);
    MmioOutcomeExact(v, area, d, exits(n).virtio);
    hide PortOutcome; hide MmioOutcome; hide M.Dispatch; hide PortIo.Service; hide PortIoExitOf; hide MmioExitOf;
    hide RunIo; hide ExitReason; hide Diagnostic; hide AreaOf;
    assert IosOf(v, exits, n) + [] == IosOf(v, exits, n) && AccessesOf(v, exits, n) + [] == AccessesOf(v, exits, n);
  }

  /** How many exits of a finished run were serviced: all of them when the budget ended it, all but
      the last otherwise. */
  function Serviced(end: RunResult): nat {
    if end.result.Err? && end.result.error.VmExit? && end.result.error.exit.ExitBudgetExhausted? then end.runs
    else if end.runs == 0 then 0
    else end.runs - 1
  }

  /** However a run ends, the debug output and every byte device's log are their prior contents
      followed, in order, by what the stream's serviced exits wrote to them; and a successful run
      returns exactly those exits. */
  lemma {:induction false} RunProjects(start: Devices, v: Setup, exits: nat -> KvmStep, limit: u32, n: nat, d: Devices)
    requires v.Valid() && n <= limit && LogsTrack(start, d, IosOf(v, exits, n), AccessesOf(v, exits, n))
    ensures var end := RunFrom(v, exits, limit, n, d, IosOf(v, exits, n), AccessesOf(v, exits, n));
            && LogsTrack(start, end.devices, IosOf(v, exits, Serviced(end)), AccessesOf(v, exits, Serviced(end)))
            && (end.result.Ok? ==>
                  && end.result.value.ioExits == IosOf(v, exits, Serviced(end))
                  && end.result.value.mmioExits == AccessesOf(v, exits, Serviced(end)))
    decreases limit - n
  {
    hide RunFrom; hide OutcomeOf; hide AttachTrace; hide Trace; hide AreaOf; hide LogsTrack; hide IosOf;
    hide AccessesOf;
    var ios, accesses := IosOf(v, exits, n), AccessesOf(v, exits, n);
    if n == limit || !exits(n).succeeds {
      RunEnds(v, exits, limit, n, d, ios, accesses);
    } else {
      var area := AreaOf(exits(n), v.size);
      var o := OutcomeOf(v, area, d, exits(n));
      RunStep(v, exits, limit, n, d, ios, accesses);
      LogsTrackStep(start, v, area, d, exits(n), ios, accesses);
      DecodedStep(v, exits, n, d);
      OutcomeExact(v, area, d, exits(n));
      match o.result
      case Ok(Continue(_)) => RunProjects(start, v, exits, limit, n + 1, o.devices);
      case Ok(Stopped(_)) =>
      case Err(error) => AttachKeepsKind(error, Trace(exits, n + 1, v.size));
    }
  }

  /** A whole run, from any devices on a valid bus: accounts, lists and logs together. */
  lemma WholeRun(v: Setup, exits: nat -> KvmStep, limit: u32, d: Devices)
    requires v.Valid() && M.Valid(d.bus)
    ensures var end := RunFrom(v, exits, limit, 0, d, [], []);
            var ios, accesses := IosOf(v, exits, Serviced(end)), AccessesOf(v, exits, Serviced(end));
            && Accounted(v, exits, limit, end)
            && M.Valid(end.devices.bus)
            && DebugAgrees(d.ports, end.devices.ports, ios)
            && LogsAgree(d.bus, end.devices.bus, accesses)
            && (end.result.Ok? ==> end.result.value.ioExits == ios && end.result.value.mmioExits == accesses)
  {
    NothingServiced(d);
    hide RunFrom; hide Accounted; hide DebugAgrees; hide LogsAgree; hide M.Valid;
    RunAccounted(v, exits, limit, 0, d, [], []);
    RunProjects(d, v, exits, limit, 0, d);
  }
}
