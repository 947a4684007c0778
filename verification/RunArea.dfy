/** The x86-64 layout of `struct kvm_run`, written down as the bytes each kind of exit occupies,
    and the decoders of the vCPU proved to read exactly that layout. */
module RunArea {
  import opened Words
  import opened Vcpu
  import P = Pci
  import M = Mmio

  /** `value` in `width` little-endian bytes at offset `at`. */
  ghost predicate Field(area: seq<u8>, at: nat, value: nat, width: nat) {
    at + width <= |area| && area[at..at + width] == LeBytes(value, width)
  }

  lemma FieldIsValue(area: seq<u8>, at: nat, value: nat, width: nat)
    requires at + width <= |area|
    requires (width == 1 && value < 0x100) || (width == 2 && value < 0x1_0000)
             || (width == 4 && value < 0x1_0000_0000) || (width == 8 && value < U64_LIMIT)
    ensures Field(area, at, value, width) <==> LeValue(area[at..at + width]) == value
  {
    hide LeBytes; hide LeValue;
    LeWord(value, width);
    LeCanonical(area[at..at + width]);
  }

  lemma Field32(area: seq<u8>, at: nat, value: u32)
    requires at + 4 <= |area|
    ensures Field(area, at, value, 4) <==> U32At(area, at) == value
  {
    hide LeBytes; hide LeValue;
    FieldIsValue(area, at, value, 4);
  }

  lemma Field64(area: seq<u8>, at: nat, value: u64)
    requires at + 8 <= |area|
    ensures Field(area, at, value, 8) <==> U64At(area, at) == value
  {
    hide LeBytes; hide LeValue;
    FieldIsValue(area, at, value, 8);
  }

  lemma Field8(area: seq<u8>, at: nat, value: u8)
    requires at < |area|
    ensures Field(area, at, value, 1) <==> area[at] == value
  {
    assert area[at..at + 1] == [area[at]];
  }

  // ---------------------------------------------------------------- port I/O

  /** KVM_EXIT_IO: direction at 32, size at 33, port at 34, count at 36, and at 40 the offset of the
      data, which an output fills with its bytes. */
  ghost predicate HoldsPortExit(area: seq<u8>, io: P.PortIoExit, offset: u64) {
    && Field(area, 8, 2, 4)
    && Field(area, 32, if io.direction.In? then 0 else 1, 1)
    && Field(area, 33, io.size, 1)
    && Field(area, 34, io.port, 2)
    && Field(area, 36, io.count, 4)
    && Field(area, 40, offset, 8)
    && offset + io.size as int * io.count as int <= |area|
    && io.outputData == if io.direction.In? then [] else area[offset..offset + io.size as int * io.count as int]
  }

  lemma PortFields(area: seq<u8>, io: P.PortIoExit, offset: u64)
    requires |area| >= 168
    ensures HoldsPortExit(area, io, offset) <==>
            && ExitReason(area) == 2
            && RunIo(area) == KvmRunIo(if io.direction.In? then 0 else 1, io.size, io.port, io.count, offset)
            && offset + io.size as int * io.count as int <= |area|
            && io.outputData == if io.direction.In? then [] else area[offset..offset + io.size as int * io.count as int]
  {
    hide LeBytes; hide LeValue; hide Field;
    Field32(area, 8, 2);
    Field8(area, 32, if io.direction.In? then 0 else 1);
    Field8(area, 33, io.size);
    FieldIsValue(area, 34, io.port, 2);
    Field32(area, 36, io.count);
    Field64(area, 40, offset);
  }

  /** A port exit laid out in the area at any offset that fits decodes to that exit, and nothing
      else decodes. */
  lemma PortExitRoundTrip(id: u16, area: seq<u8>, io: P.PortIoExit, offset: u64)
    requires 168 <= |area| < U64_LIMIT
    ensures HoldsPortExit(area, io, offset) ==> PortIoExitOf(id, area) == Ok(io) && RunIo(area).dataOffset == offset
    ensures PortIoExitOf(id, area) == Ok(io) ==> HoldsPortExit(area, io, RunIo(area).dataOffset)
  {
    hide RunIo; hide ExitReason; hide HoldsPortExit;
    PortFields(area, io, offset);
    PortFields(area, io, RunIo(area).dataOffset);
  }

  /** The three refusals, each with what it found in the area. */
  lemma PortExitRefusals(id: u16, area: seq<u8>, reason: u32)
    requires 168 <= |area| < U64_LIMIT && Field(area, 8, reason, 4)
    ensures reason != 2 ==> PortIoExitOf(id, area) == Err(VmExit(PayloadUnavailable(id, Io, reason)))
    ensures reason == 2 && area[32] > 1 ==> PortIoExitOf(id, area) == Err(VmExit(InvalidIoDirection(id, area[32])))
    ensures var io := RunIo(area);
            reason == 2 && area[32] <= 1 && io.dataOffset + area[33] as int * io.count as int > |area| ==>
              PortIoExitOf(id, area) == Err(VmExit(InvalidIoDataRange(id, io, |area|)))
  {
    hide LeBytes; hide LeValue; hide Field;
    Field32(area, 8, reason);
  }

  // ---------------------------------------------------------------- MMIO

  /** KVM_EXIT_MMIO: address at 32, eight data bytes at 40, length at 48, direction at 52. */
  ghost predicate HoldsMmioExit(area: seq<u8>, access: M.MmioExit) {
    && Field(area, 8, 6, 4)
    && Field(area, 32, access.address, 8)
    && Field(area, 48, access.length, 4)
    && Field(area, 52, if access.direction.Read? then 0 else 1, 1)
    && 1 <= access.length <= 8
    && access.writeData == if access.direction.Read? then [] else area[40..40 + access.length]
  }

  lemma MmioExitRoundTrip(id: u16, area: seq<u8>, access: M.MmioExit)
    requires |area| >= 168
    ensures MmioExitOf(id, area) == Ok(access) <==> HoldsMmioExit(area, access)
  {
    hide LeBytes; hide LeValue; hide Field; hide U32At; hide U64At;
    Field32(area, 8, 6);
    Field64(area, 32, access.address);
    Field32(area, 48, access.length);
    Field8(area, 52, if access.direction.Read? then 0 else 1);
  }

  /** The refusals, and those of a response: it is taken only for a read, of exactly its length. */
  lemma MmioRefusals(id: u16, area: seq<u8>, reason: u32, address: u64, length: u32, responseLength: nat)
    requires |area| >= 168 && Field(area, 8, reason, 4) && Field(area, 32, address, 8) && Field(area, 48, length, 4)
    ensures reason != 6 ==>
              MmioExitOf(id, area) == Err(VmExit(PayloadUnavailable(id, Mmio, reason)))
              && CheckedMmioResponse(id, area, responseLength) == Err(VmExit(PayloadUnavailable(id, Mmio, reason)))
    ensures reason == 6 && area[52] > 1 ==>
              MmioExitOf(id, area) == Err(VmExit(InvalidMmioDirection(id, area[52])))
              && CheckedMmioResponse(id, area, responseLength) == Err(VmExit(InvalidMmioDirection(id, area[52])))
    ensures reason == 6 && area[52] <= 1 && !(1 <= length <= 8) ==>
              MmioExitOf(id, area) == Err(VmExit(InvalidMmioLength(id, address, length)))
    ensures CheckedMmioResponse(id, area, responseLength).Ok? <==>
            reason == 6 && area[52] == 0 && 1 <= length == responseLength <= 8
  {
    hide LeBytes; hide LeValue; hide Field;
    Field32(area, 8, reason);
    Field64(area, 32, address);
    Field32(area, 48, length);
    hide U32At; hide U64At;
  }

  // ---------------------------------------------------------------- diagnostics

  ghost predicate HoldsWords(area: seq<u8>, words: seq<u64>) {
    |words| <= 16 && forall i :: 0 <= i < |words| ==> Field(area, 40 + 8 * i, words[i], 8)
  }

  /** The payload a diagnostic reports, as it lies in the area. */
  ghost predicate HoldsDiagnostic(area: seq<u8>, optionalData: bool, registers: Option<Registers>, e: VmExitError) {
    match e
    case KvmUnknownExit(_, hardware, trace) => Field(area, 8, 0, 4) && Field(area, 32, hardware, 8) && trace == [0]
    case ExceptionExit(_, exception, code, trace) =>
      Field(area, 8, 1, 4) && Field(area, 32, exception, 4) && Field(area, 36, code, 4) && trace == [1]
    case EntryFailure(_, hardware, cpu, trace) =>
      Field(area, 8, 9, 4) && Field(area, 32, hardware, 8) && Field(area, 40, cpu, 4) && trace == [9]
    case InternalErrorExit(_, suberror, data, trace) =>
      && Field(area, 8, 17, 4) && Field(area, 32, suberror, 4) && trace == [17]
      && optionalData == data.Some?
      && (data.Some? ==> HoldsWords(area, data.value) && Field(area, 36, |data.value|, 4))
    case InvalidInternalErrorDataCount(_, suberror, ndata, trace) =>
      && Field(area, 8, 17, 4) && Field(area, 32, suberror, 4) && Field(area, 36, ndata, 4) && trace == [17]
      && optionalData && ndata > 16
    case UnsupportedSystemEvent(_, eventType, words, reported, trace) =>
      && Field(area, 8, 24, 4) && Field(area, 32, eventType, 4) && trace == [24]
      && HoldsWords(area, words) && Field(area, 36, |words|, 4) && registers == Some(reported)
    case InvalidSystemEventDataCount(_, ndata, trace) =>
      Field(area, 8, 24, 4) && Field(area, 36, ndata, 4) && ndata > 16 && trace == [24]
    case UnhandledExit(_, reason, reported, trace) =>
      && Field(area, 8, reason, 4) && reason !in [0, 1, 2, 4, 5, 6, 8, 9, 17, 24]
      && trace == [reason] && registers == Some(reported)
    case _ => false
  }

  lemma WordsExact(area: seq<u8>, words: seq<u64>, count: nat)
    requires |area| >= 168 && count <= 16
    ensures DataWords(area, count) == words <==> |words| == count && HoldsWords(area, words)
  {
    hide LeBytes; hide LeValue; hide Field; hide U64At;
    forall i | 0 <= i < |words| && |words| == count
      ensures Field(area, 40 + 8 * i, words[i], 8) <==> DataWords(area, count)[i] == words[i]
    {
      Field64(area, 40 + 8 * i, words[i]);
    }
    if |words| == count && HoldsWords(area, words) {
      assert forall i :: 0 <= i < count ==> DataWords(area, count)[i] == words[i];
    }
  }

  /** The same payload, as the values the decoders read. */
  ghost predicate ReadsDiagnostic(area: seq<u8>, optionalData: bool, registers: Option<Registers>, e: VmExitError)
    requires |area| >= 168
  {
    var reason, first, second := ExitReason(area), U32At(area, 32), U32At(area, 36);
    match e
    case KvmUnknownExit(_, hardware, trace) => reason == 0 && U64At(area, 32) == hardware && trace == [0]
    case ExceptionExit(_, exception, code, trace) =>
      reason == 1 && first == exception && second == code && trace == [1]
    case EntryFailure(_, hardware, cpu, trace) =>
      reason == 9 && U64At(area, 32) == hardware && U32At(area, 40) == cpu && trace == [9]
    case InternalErrorExit(_, suberror, data, trace) =>
      && reason == 17 && first == suberror && trace == [17] && optionalData == data.Some?
      && (data.Some? ==> second <= 16 && DataWords(area, second) == data.value)
    case InvalidInternalErrorDataCount(_, suberror, ndata, trace) =>
      reason == 17 && first == suberror && second == ndata && trace == [17] && optionalData && ndata > 16
    case UnsupportedSystemEvent(_, eventType, words, reported, trace) =>
      && reason == 24 && first == eventType && trace == [24]
      && second <= 16 && DataWords(area, second) == words && registers == Some(reported)
    case InvalidSystemEventDataCount(_, ndata, trace) => reason == 24 && second == ndata && ndata > 16 && trace == [24]
    case UnhandledExit(_, unknown, reported, trace) =>
      && reason == unknown && unknown !in [0, 1, 2, 4, 5, 6, 8, 9, 17, 24]
      && trace == [unknown] && registers == Some(reported)
    case _ => false
  }

  lemma DiagnosticFields(area: seq<u8>, optionalData: bool, registers: Option<Registers>, e: VmExitError)
    requires |area| >= 168
    ensures HoldsDiagnostic(area, optionalData, registers, e) <==> ReadsDiagnostic(area, optionalData, registers, e)
  {
    hide LeBytes; hide LeValue; hide Field; hide U64At; hide U32At; hide DataWords; hide HoldsWords;
    match e
    case KvmUnknownExit(_, hardware, _) => Field32(area, 8, 0); Field64(area, 32, hardware);
    case ExceptionExit(_, exception, code, _) =>
      Field32(area, 8, 1); Field32(area, 32, exception); Field32(area, 36, code);
    case EntryFailure(_, hardware, cpu, _) =>
      Field32(area, 8, 9); Field64(area, 32, hardware); Field32(area, 40, cpu);
    case InternalErrorExit(_, suberror, data, _) =>
      Field32(area, 8, 17); Field32(area, 32, suberror);
      if data.Some? { CountedWords(area, data.value); }
    case InvalidInternalErrorDataCount(_, suberror, ndata, _) =>
      Field32(area, 8, 17); Field32(area, 32, suberror); Field32(area, 36, ndata);
    case UnsupportedSystemEvent(_, eventType, words, _, _) =>
      Field32(area, 8, 24); Field32(area, 32, eventType); CountedWords(area, words);
    case InvalidSystemEventDataCount(_, ndata, _) => Field32(area, 8, 24); Field32(area, 36, ndata);
    case UnhandledExit(_, reason, _, _) => Field32(area, 8, reason);
    case _ =>
  }

  /** A diagnostic is built exactly when its payload lies in the area, and it reports that
      payload. */
  lemma DiagnosticRoundTrip(id: u16, area: seq<u8>, exit: VcpuExit, optionalData: bool, registers: Option<Registers>,
                            e: VmExitError)
    requires |area| >= 168 && FromRaw(ExitReason(area)) == exit
    requires !(exit.Io? || exit.Mmio? || exit.Debug? || exit.Hlt? || exit.Shutdown?)
    ensures Diagnostic(id, area, exit, optionalData, registers) == VmExit(e) <==>
            e.vcpuId == id && HoldsDiagnostic(area, optionalData, registers, e)
  {
    DiagnosticFields(area, optionalData, registers, e);
    hide HoldsDiagnostic; hide U64At; hide U32At; hide DataWords; hide ExitReason;
  }

  /** The registers are asked for only where they are reported. */
  lemma RegistersAskedFor(id: u16, area: seq<u8>, exit: VcpuExit, optionalData: bool, registers: Option<Registers>)
    requires |area| >= 168 && FromRaw(ExitReason(area)) == exit
    requires !(exit.Io? || exit.Mmio? || exit.Debug? || exit.Hlt? || exit.Shutdown?)
    ensures Diagnostic(id, area, exit, optionalData, registers) == GetRegistersFailed <==>
            registers.None? && (exit.Unhandled? || (exit.SystemEvent? && U32At(area, 36) <= 16))
  {
    hide U64At; hide U32At; hide DataWords; hide ExitReason;
  }

  lemma CountedWords(area: seq<u8>, words: seq<u64>)
    requires |area| >= 168
    ensures HoldsWords(area, words) && Field(area, 36, |words|, 4) <==>
            U32At(area, 36) <= 16 && DataWords(area, U32At(area, 36)) == words
  {
    hide LeBytes; hide LeValue; hide Field; hide U64At; hide U32At; hide DataWords; hide HoldsWords;
    assert HoldsWords(area, words) ==> |words| <= 16 by { WordsAreFew(area, words); }
    if |words| <= 16 { Field32(area, 36, |words|); }
    if U32At(area, 36) <= 16 { WordsExact(area, words, U32At(area, 36)); }
  }

  lemma WordsAreFew(area: seq<u8>, words: seq<u64>)
    ensures HoldsWords(area, words) ==> |words| <= 16
  {
  }
}
