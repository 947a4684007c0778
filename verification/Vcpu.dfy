/** The vCPU's shared run area: exit classification, and checked access to the payload of each
    exit (src/vcpu.rs and the files of src/vcpu). Offsets are those of the x86-64 `struct kvm_run`. */
module Vcpu {
  import opened Words
  import P = Pci
  import M = Mmio

  const REASON_AT: nat := 8
  const PAYLOAD_AT: nat := 32
  /** The largest typed prefix: the internal-error and system-event payloads with 16 words. */
  const REQUIRED_SIZE: nat := 168
  const MMIO_CAPACITY: nat := 8
  const MMIO_DATA_AT: nat := 40
  const DATA_CAPACITY: nat := 16

  datatype VcpuExit =
    | KvmUnknown | Exception | Debug | Hlt | Io | Mmio | Shutdown | FailEntry | InternalError | SystemEvent
    | Unhandled(reason: u32)

  function FromRaw(reason: u32): VcpuExit {
    if reason == 0 then KvmUnknown
    else if reason == 1 then Exception
    else if reason == 4 then Debug
    else if reason == 2 then Io
    else if reason == 5 then Hlt
    else if reason == 6 then Mmio
    else if reason == 8 then Shutdown
    else if reason == 9 then FailEntry
    else if reason == 17 then InternalError
    else if reason == 24 then SystemEvent
    else Unhandled(reason)
  }

  function Reason(exit: VcpuExit): u32 {
    match exit
    case KvmUnknown => 0
    case Exception => 1
    case Debug => 4
    case Io => 2
    case Hlt => 5
    case Mmio => 6
    case Shutdown => 8
    case FailEntry => 9
    case InternalError => 17
    case SystemEvent => 24
    case Unhandled(reason) => reason
  }

  /** Classifying loses nothing: the reason comes back for every raw value. */
  lemma ReasonRoundTrip(reason: u32)
    ensures Reason(FromRaw(reason)) == reason
  {
  }

  datatype Registers = Registers(rip: u64, rflags: u64)

  // ---------------------------------------------------------------- errors

  datatype VmExitError =
    | UnhandledExit(vcpuId: u16, reason: u32, registers: Registers, exitReasons: seq<u32>)
    | KvmUnknownExit(vcpuId: u16, hardwareExitReason: u64, exitReasons: seq<u32>)
    | ExceptionExit(vcpuId: u16, exception: u32, errorCode: u32, exitReasons: seq<u32>)
    | EntryFailure(vcpuId: u16, hardwareEntryFailureReason: u64, cpu: u32, exitReasons: seq<u32>)
    | InternalErrorExit(vcpuId: u16, suberror: u32, data: Option<seq<u64>>, exitReasons: seq<u32>)
    | InvalidInternalErrorDataCount(vcpuId: u16, suberror: u32, ndata: u32, exitReasons: seq<u32>)
    | UnsupportedSystemEvent(vcpuId: u16, eventType: u32, words: seq<u64>, registers: Registers, exitReasons: seq<u32>)
    | InvalidSystemEventDataCount(vcpuId: u16, ndata: u32, exitReasons: seq<u32>)
    | ExitBudgetExhausted(vcpuId: u16, budget: u32, completed: nat, lastExitReason: Option<u32>, exitReasons: seq<u32>)
    | PayloadUnavailable(vcpuId: u16, wanted: VcpuExit, exitReason: u32)
    | InvalidIoDirection(vcpuId: u16, direction: u8)
    | InvalidIoDataRange(vcpuId: u16, io: KvmRunIo, mappingSize: nat)
    | IoResponseForNonInput(vcpuId: u16, direction: u8)
    | InvalidIoResponseLength(vcpuId: u16, port: u16, expected: nat, actual: nat)
    | InvalidMmioDirection(vcpuId: u16, isWrite: u8)
    | InvalidMmioLength(vcpuId: u16, address: u64, length: u32)
    | MmioResponseForWrite(vcpuId: u16, address: u64)
    | InvalidMmioResponseLength(vcpuId: u16, address: u64, expected: nat, actual: nat)

  datatype Error =
    | VmExit(exit: VmExitError)
    | PortIoFault(port: P.PortIoError)
    | MmioFault(mmio: M.MmioError)
    | KvmRunFailed
    | GetRegistersFailed

  // ---------------------------------------------------------------- port I/O payload

  datatype KvmRunIo = KvmRunIo(direction: u8, size: u8, port: u16, count: u32, dataOffset: u64) {
    function Length(): nat { size as int * count as int }
  }

  function RunIo(area: seq<u8>): KvmRunIo
    requires |area| >= REQUIRED_SIZE
  {
    KvmRunIo(area[32], area[33], U16At(area, 34), U32At(area, 36), U64At(area, 40))
  }

  function ExitReason(area: seq<u8>): u32
    requires |area| >= REQUIRED_SIZE
  {
    U32At(area, REASON_AT)
  }

  function PortDirectionOf(id: u16, raw: u8): Result<P.PortDirection, Error> {
    if raw == 0 then Ok(P.In)
    else if raw == 1 then Ok(P.Out)
    else Err(VmExit(InvalidIoDirection(id, raw)))
  }

  /** The data range of an I/O exit, accepted exactly when it lies within the mapping; the
      64-bit overflow check is subsumed. */
  function CheckedIoDataRange(id: u16, io: KvmRunIo, mappingSize: nat): (r: Result<nat, Error>)
    requires mappingSize < U64_LIMIT
    ensures r.Ok? <==> io.dataOffset + io.Length() <= mappingSize
    ensures r.Ok? ==> r.value == io.dataOffset
  {
    if io.dataOffset + io.Length() >= U64_LIMIT then Err(VmExit(InvalidIoDataRange(id, io, mappingSize)))
    else if io.dataOffset + io.Length() > mappingSize then Err(VmExit(InvalidIoDataRange(id, io, mappingSize)))
    else Ok(io.dataOffset)
  }

  function CheckedIoResponseRange(id: u16, io: KvmRunIo, mappingSize: nat, responseLength: nat): Result<nat, Error>
    requires mappingSize < U64_LIMIT
  {
    var direction := PortDirectionOf(id, io.direction);
    if direction.Err? then Err(direction.error)
    else if direction.value != P.In then Err(VmExit(IoResponseForNonInput(id, io.direction)))
    else
      var range := CheckedIoDataRange(id, io, mappingSize);
      if range.Err? then Err(range.error)
      else if responseLength != io.Length() then
        Err(VmExit(InvalidIoResponseLength(id, io.port, io.Length(), responseLength)))
      else range
  }

  /** A response is accepted exactly for an input whose data range lies in the run area and has the
      response's length; it then goes to the start of that range. */
  lemma ResponseRangeFits(id: u16, io: KvmRunIo, mappingSize: nat, responseLength: nat)
    requires mappingSize < U64_LIMIT
    ensures var r := CheckedIoResponseRange(id, io, mappingSize, responseLength);
            && (r.Ok? <==>
                io.direction == 0 && responseLength == io.Length() && io.dataOffset + responseLength <= mappingSize)
            && (r.Ok? ==> r.value == io.dataOffset)
  {
  }

  function PortIoExitOf(id: u16, area: seq<u8>): (r: Result<P.PortIoExit, Error>)
    requires REQUIRED_SIZE <= |area| < U64_LIMIT
  {
    var io := RunIo(area);
    if ExitReason(area) != Reason(Io) then Err(VmExit(PayloadUnavailable(id, Io, ExitReason(area))))
    else
      var direction := PortDirectionOf(id, io.direction);
      if direction.Err? then Err(direction.error)
      else
        var range := CheckedIoDataRange(id, io, |area|);
        if range.Err? then Err(range.error)
        else
          var output := if direction.value == P.Out then area[range.value..range.value + io.Length()] else [];
          Ok(P.PortIoExit(direction.value, io.size, io.port, io.count, output))
  }

  // ---------------------------------------------------------------- MMIO payload

  /** The `mmio` union member: address at 32, data at 40, length at 48, direction at 52. */
  function MmioExitOf(id: u16, area: seq<u8>): (r: Result<M.MmioExit, Error>)
    requires |area| >= REQUIRED_SIZE
    ensures r.Ok? ==> 1 <= r.value.length <= MMIO_CAPACITY
    ensures r.Ok? && r.value.direction.Write? ==> |r.value.writeData| == r.value.length
  {
    if ExitReason(area) != Reason(Mmio) then Err(VmExit(PayloadUnavailable(id, Mmio, ExitReason(area))))
    else
      var address, length, isWrite := U64At(area, 32), U32At(area, 48), area[52];
      if isWrite > 1 then Err(VmExit(InvalidMmioDirection(id, isWrite)))
      else if length == 0 || length > MMIO_CAPACITY then Err(VmExit(InvalidMmioLength(id, address, length)))
      else if isWrite == 0 then Ok(M.MmioExit(address, M.Read, length, []))
      else Ok(M.MmioExit(address, M.Write, length, area[40..40 + length]))
  }

  /** Where a read response goes, or why it is refused. */
  function CheckedMmioResponse(id: u16, area: seq<u8>, responseLength: nat): Result<(), Error>
    requires |area| >= REQUIRED_SIZE
  {
    if ExitReason(area) != Reason(Mmio) then Err(VmExit(PayloadUnavailable(id, Mmio, ExitReason(area))))
    else
      var address, length, isWrite := U64At(area, 32), U32At(area, 48), area[52];
      if isWrite > 1 then Err(VmExit(InvalidMmioDirection(id, isWrite)))
      else if isWrite == 1 then Err(VmExit(MmioResponseForWrite(id, address)))
      else if length == 0 || length > MMIO_CAPACITY then Err(VmExit(InvalidMmioLength(id, address, length)))
      else if responseLength != length then Err(VmExit(InvalidMmioResponseLength(id, address, length, responseLength)))
      else Ok(())
  }

  // ---------------------------------------------------------------- diagnostic payloads

  /** `count` 64-bit words from offset 40 on. */
  function DataWords(area: seq<u8>, count: nat): seq<u64>
    requires |area| >= REQUIRED_SIZE && count <= DATA_CAPACITY
  {
    seq<u64>(count, i requires 0 <= i < count => U64At(area, 40 + 8 * i))
  }

  /** The diagnostic of an exit the model cannot continue from, with a one-entry trace. */
  function Diagnostic(id: u16, area: seq<u8>, exit: VcpuExit, optionalData: bool, registers: Option<Registers>)
    : (e: Error)
    requires |area| >= REQUIRED_SIZE && FromRaw(ExitReason(area)) == exit
    requires !(exit.Io? || exit.Mmio? || exit.Debug? || exit.Hlt? || exit.Shutdown?)
  {
    match exit
    case KvmUnknown => VmExit(KvmUnknownExit(id, U64At(area, 32), [Reason(exit)]))
    case Exception => VmExit(ExceptionExit(id, U32At(area, 32), U32At(area, 36), [Reason(exit)]))
    case FailEntry => VmExit(EntryFailure(id, U64At(area, 32), U32At(area, 40), [Reason(exit)]))
    case InternalError =>
      if !optionalData then VmExit(InternalErrorExit(id, U32At(area, 32), None, [Reason(exit)]))
      else if U32At(area, 36) > DATA_CAPACITY then
        VmExit(InvalidInternalErrorDataCount(id, U32At(area, 32), U32At(area, 36), [Reason(exit)]))
      else VmExit(InternalErrorExit(id, U32At(area, 32), Some(DataWords(area, U32At(area, 36))), [Reason(exit)]))
    case SystemEvent =>
      if U32At(area, 36) > DATA_CAPACITY then VmExit(InvalidSystemEventDataCount(id, U32At(area, 36), [Reason(exit)]))
      else if registers.None? then GetRegistersFailed
      else VmExit(UnsupportedSystemEvent(id, U32At(area, 32), DataWords(area, U32At(area, 36)), registers.value,
                                         [Reason(exit)]))
    case Unhandled(reason) =>
      if registers.None? then GetRegistersFailed else VmExit(UnhandledExit(id, reason, registers.value, [reason]))
  }

  // ---------------------------------------------------------------- the vCPU

  /** What one KVM_RUN does: it fails, or it returns with the run area filled in. Along with it
      come the answers of the calls the handler of that exit may make. Interrupted runs are
      retried by the source and do not count. */
  datatype KvmStep = KvmStep(succeeds: bool, area: nat -> u8, registers: Option<Registers>, virtio: M.VirtioReply)

  class VcpuState {
    const id: u16
    const optionalData: bool
    const run: array<u8>

    ghost predicate Valid()
      reads this
    {
      REQUIRED_SIZE <= run.Length < U64_LIMIT
    }

    ghost function Area(): (s: seq<u8>)
      reads this, run
      ensures |s| == run.Length
    {
      run[..]
    }

    constructor (id: u16, optionalData: bool, size: nat)
      requires REQUIRED_SIZE <= size < U64_LIMIT
      ensures Valid() && fresh(run)
    {
      this.id, this.optionalData := id, optionalData;
      run := new u8[size](_ => 0);
    }

    /** One completed KVM_RUN and the classification of its exit. */
    method RunOnce(step: KvmStep) returns (r: Result<VcpuExit, Error>)
      requires Valid()
      modifies run
      ensures r.Ok? <==> step.succeeds
      ensures r.Err? ==> r.error == KvmRunFailed
      ensures step.succeeds ==> forall i :: 0 <= i < run.Length ==> run[i] == step.area(i)
      ensures r.Ok? ==> r.value == FromRaw(ExitReason(Area()))
    {
      if !step.succeeds { return Err(KvmRunFailed); }
      forall i | 0 <= i < run.Length { run[i] := step.area(i); }
      return Ok(FromRaw(U32At(run[..], REASON_AT)));
    }

    /** Writes an input response into the checked data range and nowhere else. */
    method WritePortIoInput(response: seq<u8>) returns (r: Result<(), Error>)
      requires Valid()
      modifies run
      ensures old(ExitReason(Area())) != Reason(Io) ==> r.Err? && r.error.VmExit? && r.error.exit.PayloadUnavailable?
      ensures old(ExitReason(Area())) == Reason(Io) ==>
                var range := CheckedIoResponseRange(id, old(RunIo(Area())), run.Length, |response|);
                && (r.Ok? <==> range.Ok?)
                && (r.Err? ==> r.error == range.error)
                && (r.Ok? ==> Area() == Patch(old(Area()), range.value, response))
      ensures r.Err? ==> Area() == old(Area())
    {
      hide U32At; hide RunIo;
      ResponseRangeFits(id, RunIo(run[..]), run.Length, |response|);
      hide CheckedIoResponseRange;
      var reason := U32At(run[..], REASON_AT);
      if reason != Reason(Io) { return Err(VmExit(PayloadUnavailable(id, Io, reason))); }
      var io := RunIo(run[..]);
      var range := CheckedIoResponseRange(id, io, run.Length, |response|);
      if range.Err? { return Err(range.error); }
      forall i | 0 <= i < |response| { run[range.value + i] := response[i]; }
      return Ok(());
    }

    /** Writes a read response into the first bytes of the MMIO data array. */
    method WriteMmioReadResponse(response: seq<u8>) returns (r: Result<(), Error>)
      requires Valid()
      modifies run
      ensures r.Ok? <==> old(CheckedMmioResponse(id, Area(), |response|)).Ok?
      ensures r.Err? ==> r.error == old(CheckedMmioResponse(id, Area(), |response|)).error && Area() == old(Area())
      ensures r.Ok? ==> |response| <= MMIO_CAPACITY && Area() == Patch(old(Area()), MMIO_DATA_AT, response)
    {
      var checked := CheckedMmioResponse(id, run[..], |response|);
      if checked.Err? { return Err(checked.error); }
      forall i | 0 <= i < |response| { run[MMIO_DATA_AT + i] := response[i]; }
      return Ok(());
    }
  }
}
