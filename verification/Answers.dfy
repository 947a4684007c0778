/** What the guest and the host see of one serviced exit, and of a whole run, in the bytes of the
    run area: the exit as `struct kvm_run` lays it out on one side, the answer and the device logs on
    the other. */
module Answers {
  import opened Words
  import opened Vcpu
  import opened RunArea
  import opened Execution
  import P = Pci
  import PortIo
  import M = Mmio

  // ---------------------------------------------------------------- port exits

  /** An exit laid out in the area is the one that is serviced. */
  lemma PortExitServiced(v: Setup, area: seq<u8>, d: Devices, step: KvmStep, io: P.PortIoExit, offset: u64)
    requires v.Valid() && |area| == v.size && HoldsPortExit(area, io, offset)
    requires PortIo.Service(d.ports, io).1.Ok?
    ensures var o := OutcomeOf(v, area, d, step);
            && o.result == Ok(Continue(ServicedPortIo(io)))
            && o.devices == d.(ports := PortIo.Service(d.ports, io).0)
            && (io.direction.Out? ==> o.area == area)
            && (io.direction.In? ==>
                  && PortIo.Service(d.ports, io).1.value.Response?
                  && |PortIo.Service(d.ports, io).1.value.bytes| == io.size as int * io.count as int
                  && o.area == Patch(area, offset, PortIo.Service(d.ports, io).1.value.bytes))
  {
    PortExitRoundTrip(v.id, area, io, offset);
    PortFields(area, io, offset);
    PortResponseAccepted(v.id, area, d.ports);
    PortIo.ResponseFits(d.ports, io);
    hide HoldsPortExit; hide RunIo; hide ExitReason; hide PortIo.Service; hide PortIoExitOf; hide Diagnostic;
    hide CheckedIoResponseRange; hide MmioOutcome;
  }

  /** A byte written to port 0xe9 is appended to the debug log. */
  lemma DebugOutputLogged(v: Setup, area: seq<u8>, d: Devices, step: KvmStep, offset: u64, byte: u8)
    requires v.Valid() && |area| == v.size && d.ports.debugPort.Some?
    requires HoldsPortExit(area, P.PortIoExit(P.Out, 1, 0xe9, 1, [byte]), offset)
    ensures var o, log := OutcomeOf(v, area, d, step), d.ports.debugPort.value;
            && o.result.Ok? && o.result.value.Continue? && o.area == area
            && o.devices == d.(ports := d.ports.(debugPort := Some(log.(bytes := log.bytes + [byte]))))
  {
    hide HoldsPortExit; hide OutcomeOf;
    PortExitServiced(v, area, d, step, P.PortIoExit(P.Out, 1, 0xe9, 1, [byte]), offset);
  }

  /** A byte read from port 0xe9 is the configured input byte; only that byte of the area changes. */
  lemma DebugInputAnswered(v: Setup, area: seq<u8>, d: Devices, step: KvmStep, offset: u64)
    requires v.Valid() && |area| == v.size && d.ports.debugPort.Some?
    requires HoldsPortExit(area, P.PortIoExit(P.In, 1, 0xe9, 1, []), offset)
    ensures var o := OutcomeOf(v, area, d, step);
            && o.result.Ok? && o.result.value.Continue? && o.devices == d
            && o.area == area[offset := d.ports.debugPort.value.inputByte]
  {
    assert offset + 1 <= |area|;
    hide HoldsPortExit; hide OutcomeOf;
    PortExitServiced(v, area, d, step, P.PortIoExit(P.In, 1, 0xe9, 1, []), offset);
  }

  /** A doubleword read from port 0xcfc is the register the latched address names, or all ones. */
  lemma ConfigReadAnswered(v: Setup, area: seq<u8>, d: Devices, step: KvmStep, offset: u64)
    requires v.Valid() && |area| == v.size && d.ports.pciConfig.Some?
    requires HoldsPortExit(area, P.PortIoExit(P.In, 4, 0xcfc, 1, []), offset)
    ensures offset + 4 <= |area|
    ensures var o, c := OutcomeOf(v, area, d, step), d.ports.pciConfig.value;
            && o.result.Ok? && o.result.value.Continue? && o.devices == d
            && o.area == Patch(area, offset, if P.NamesFunction(c.address)
                                             then P.RegisterBytes(c.device, P.RegisterOf(c.address))
                                             else [0xff, 0xff, 0xff, 0xff])
  {
    assert offset + 4 <= |area|;
    hide HoldsPortExit; hide OutcomeOf;
    P.DataReadExact(d.ports.pciConfig.value);
    hide P.Dispatch; hide P.NamesFunction; hide P.RegisterBytes; hide P.RegisterOf;
    PortExitServiced(v, area, d, step, P.PortIoExit(P.In, 4, 0xcfc, 1, []), offset);
  }

  /** One read from port 0xcf8 is the latched address itself. */
  lemma AddressReadAnswered(v: Setup, area: seq<u8>, d: Devices, step: KvmStep, offset: u64)
    requires v.Valid() && |area| == v.size && d.ports.pciConfig.Some?
    requires HoldsPortExit(area, P.PortIoExit(P.In, 4, 0xcf8, 1, []), offset)
    ensures offset + 4 <= |area|
    ensures var o := OutcomeOf(v, area, d, step);
            && o.result.Ok? && o.result.value.Continue? && o.devices == d
            && o.area == Patch(area, offset, LeBytes(d.ports.pciConfig.value.address, 4))
  {
    assert offset + 4 <= |area|;
    hide HoldsPortExit; hide OutcomeOf; hide LeBytes;
    PortExitServiced(v, area, d, step, P.PortIoExit(P.In, 4, 0xcf8, 1, []), offset);
  }

  // ---------------------------------------------------------------- MMIO exits

  lemma MmioExitServiced(v: Setup, area: seq<u8>, d: Devices, step: KvmStep, access: M.MmioExit)
    requires v.Valid() && |area| == v.size && HoldsMmioExit(area, access)
    requires M.Dispatch(d.bus, access, step.virtio).1.Ok?
    ensures var o, r := OutcomeOf(v, area, d, step), M.Dispatch(d.bus, access, step.virtio).1;
            && o.result == Ok(Continue(ServicedMmio(access)))
            && o.devices == d.(bus := M.Dispatch(d.bus, access, step.virtio).0)
            && (access.direction.Write? ==> o.area == area)
            && (access.direction.Read? ==>
                  r.value.ReadBack? && |r.value.bytes| == access.length && o.area == Patch(area, 40, r.value.bytes))
  {
    MmioExitRoundTrip(v.id, area, access);
    assert ExitReason(area) == 6 by { Field32(area, 8, 6); }
    MmioResponseAccepted(v.id, area, d.bus, step.virtio);
    hide HoldsMmioExit; hide ExitReason; hide M.Dispatch; hide MmioExitOf; hide Diagnostic; hide CheckedMmioResponse;
    hide PortOutcome;
  }

  /** A one-byte read of a plain or edge device puts its configured byte into the area. */
  lemma ConfiguredByteAnswered(v: Setup, area: seq<u8>, d: Devices, step: KvmStep, i: nat)
    requires v.Valid() && |area| == v.size && M.Valid(d.bus) && i < |d.bus.byteDevices|
    requires !d.bus.byteDevices[i].mode.LevelInterrupt? && d.bus.byteDevices[i].address + 1 < U64_LIMIT
    requires HoldsMmioExit(area, M.MmioExit(d.bus.byteDevices[i].address, M.Read, 1, []))
    ensures var o := OutcomeOf(v, area, d, step);
            && o.result.Ok? && o.result.value.Continue? && o.devices == d
            && o.area == area[40 := d.bus.byteDevices[i].readValue]
  {
    var s, dev := d.bus, d.bus.byteDevices[i];
    var access := M.MmioExit(dev.address, M.Read, 1, []);
    DeviceAnswers(s, access, step.virtio, i);
    M.HandleEffect(dev, access);
    hide OutcomeOf; hide M.Dispatch; hide HoldsMmioExit; hide M.Valid;
    MmioExitServiced(v, area, d, step, access);
  }

  /** A read of a level device's status register puts its pending state into the area. */
  lemma StatusAnswered(v: Setup, area: seq<u8>, d: Devices, step: KvmStep, i: nat)
    requires v.Valid() && |area| == v.size && M.Valid(d.bus) && i < |d.bus.byteDevices|
    requires d.bus.byteDevices[i].mode.LevelInterrupt? && d.bus.byteDevices[i].address + 3 < U64_LIMIT
    requires HoldsMmioExit(area, M.MmioExit(d.bus.byteDevices[i].address + 1, M.Read, 1, []))
    ensures var o := OutcomeOf(v, area, d, step);
            && o.result.Ok? && o.result.value.Continue? && o.devices == d
            && o.area == area[40 := if d.bus.byteDevices[i].levelPending then 1 else 0]
  {
    var s, dev := d.bus, d.bus.byteDevices[i];
    var access := M.MmioExit(dev.address + 1, M.Read, 1, []);
    DeviceAnswers(s, access, step.virtio, i);
    M.HandleEffect(dev, access);
    M.LevelRegisters(dev, access);
    hide OutcomeOf; hide M.Dispatch; hide HoldsMmioExit; hide M.Valid;
    MmioExitServiced(v, area, d, step, access);
  }

  /** A device that handles an address is the one that answers. */
  lemma DeviceAnswers(s: M.BusState, access: M.MmioExit, reply: M.VirtioReply, i: nat)
    requires M.Valid(s) && i < |s.byteDevices| && s.byteDevices[i].Handles(access.address)
    ensures var (d, r) := s.byteDevices[i].Handle(access);
            M.Dispatch(s, access, reply) == (s.(byteDevices := s.byteDevices[i := d]), r)
    ensures s.byteDevices[i := s.byteDevices[i]] == s.byteDevices
  {
    M.RangesLayout(s);
    M.DispatchFindsOwner(s, access.address, i);
  }

  /** An accepted read in a virtio window puts the device's bytes into the area, in order. */
  lemma WindowReadAnswered(v: Setup, area: seq<u8>, d: Devices, step: KvmStep, base: u64, access: M.MmioExit)
    requires v.Valid() && |area| == v.size && M.Valid(d.bus) && HoldsMmioExit(area, access)
    requires base in d.bus.rng + d.bus.blk && base <= access.address < base + 0x1000 < U64_LIMIT
    requires access.direction.Read? && step.virtio.Accepted?
    ensures var o := OutcomeOf(v, area, d, step);
            && o.result.Ok? && o.result.value.Continue? && o.devices == d
            && SameOutside(area, o.area, 40, 40 + access.length)
            && forall i :: 0 <= i < access.length ==> o.area[40 + i] == step.virtio.bytes(i)
  {
    M.WindowAccess(d.bus, access, step.virtio, base);
    MmioExitServiced(v, area, d, step, access);
    hide OutcomeOf; hide M.Dispatch; hide HoldsMmioExit; hide M.Valid;
  }

  /** An accepted write there queues exactly the notification the device returns. */
  lemma WindowWriteNotifies(v: Setup, area: seq<u8>, d: Devices, step: KvmStep, base: u64, access: M.MmioExit)
    requires v.Valid() && |area| == v.size && M.Valid(d.bus) && HoldsMmioExit(area, access)
    requires base in d.bus.rng + d.bus.blk && base <= access.address < base + 0x1000 < U64_LIMIT
    requires access.direction.Write? && step.virtio.Accepted?
    ensures var o := OutcomeOf(v, area, d, step);
            && o.result.Ok? && o.result.value.Continue? && o.area == area
            && o.devices.ports == d.ports && o.devices.bus.byteDevices == d.bus.byteDevices
            && o.devices.bus.events
            == d.bus.events + match step.virtio.notify
                              case Some(queue) => [M.EventRecord(base, M.QueueNotified(queue))]
                              case None => []
  {
    M.WindowAccess(d.bus, access, step.virtio, base);
    MmioExitServiced(v, area, d, step, access);
    hide OutcomeOf; hide M.Dispatch; hide HoldsMmioExit; hide M.Valid;
  }

  // ---------------------------------------------------------------- stopping

  /** Debug, halt and shutdown exits stop the run with the registers, whatever the payload. */
  lemma TerminalExitStops(v: Setup, area: seq<u8>, d: Devices, step: KvmStep, reason: u32, registers: Registers)
    requires v.Valid() && |area| == v.size && Field(area, 8, reason, 4) && step.registers == Some(registers)
    requires reason == 4 || reason == 5 || reason == 8
    ensures var exit := if reason == 4 then Debug else if reason == 5 then Hlt else Shutdown;
            OutcomeOf(v, area, d, step) == Outcome(Ok(Stopped(Report(v.id, exit, registers))), d, area)
  {
    Field32(area, 8, reason);
    hide PortOutcome; hide MmioOutcome; hide Field; hide U32At; hide Diagnostic;
  }

  // ---------------------------------------------------------------- logs, from the bytes of the exits

  /** The little-endian field of an exit's area. */
  function Raw(area: nat -> u8, at: nat, width: nat): nat {
    LeValue(seq<u8>(width, i requires 0 <= i => area(at + i)))
  }

  lemma RawFields(step: KvmStep, size: nat)
    requires size >= 168
    ensures var area := AreaOf(step, size);
            && ExitReason(area) == Raw(step.area, 8, 4)
            && area[32] == step.area(32) && area[33] == step.area(33) && U16At(area, 34) == Raw(step.area, 34, 2)
            && U64At(area, 40) == Raw(step.area, 40, 8)
            && U64At(area, 32) == Raw(step.area, 32, 8) && area[40] == step.area(40) && area[52] == step.area(52)
  {
    hide LeValue;
    var area := AreaOf(step, size);
    RawSlice(step, size, 8, 4);
    RawSlice(step, size, 34, 2);
    RawSlice(step, size, 40, 8);
    RawSlice(step, size, 32, 8);
  }

  lemma RawSlice(step: KvmStep, size: nat, at: nat, width: nat)
    requires at + width <= size
    ensures AreaOf(step, size)[at..at + width] == seq<u8>(width, i requires 0 <= i => step.area(at + i))
  {
  }

  /** The byte an exit puts on the debug port: an output to port 0xe9, found at the data offset. */
  function DebugPut(area: nat -> u8): seq<u8> {
    if Raw(area, 8, 4) == 2 && area(32) == 1 && Raw(area, 34, 2) == 0xe9 then [area(Raw(area, 40, 8))] else []
  }

  /** The byte an exit writes into a range: the first data byte of a write to an address in it. */
  function MmioPut(area: nat -> u8, range: M.Range): seq<u8> {
    if Raw(area, 8, 4) == 6 && area(52) == 1 && Raw(area, 32, 8) < U64_LIMIT && range.Handles(Raw(area, 32, 8))
    then [area(40)]
    else []
  }

  /** The exits `n..m` of a stream, on the debug port. */
  function DebugOutput(exits: nat -> KvmStep, n: nat, m: nat): seq<u8>
    decreases m - n
  {
    if n >= m then [] else DebugPut(exits(n).area) + DebugOutput(exits, n + 1, m)
  }

  function MmioOutput(exits: nat -> KvmStep, n: nat, m: nat, range: M.Range): seq<u8>
    decreases m - n
  {
    if n >= m then [] else MmioPut(exits(n).area, range) + MmioOutput(exits, n + 1, m, range)
  }

  /** An accepted debug output has one byte. */
  lemma DebugTakesOneByte(s: PortIo.PortState, io: P.PortIoExit)
    requires PortIo.Service(s, io).1.Ok? && io.port == 0xe9
    ensures io.size == 1 && io.count == 1
  {
  }

  lemma PortPut(v: Setup, step: KvmStep, d: Devices, io: P.PortIoExit)
    requires v.Valid() && PortIoExitOf(v.id, AreaOf(step, v.size)) == Ok(io) && PortIo.Service(d.ports, io).1.Ok?
    ensures DebugPut(step.area) == if io.port == 0xe9 && io.direction.Out? then io.outputData else []
  {
    var area := AreaOf(step, v.size);
    var offset := RunIo(area).dataOffset;
    PortExitRoundTrip(v.id, area, io, offset);
    PortFields(area, io, offset);
    RawFields(step, v.size);
    hide PortIoExitOf; hide HoldsPortExit; hide U16At; hide U64At; hide ExitReason; hide Raw;
    if io.port == 0xe9 && io.direction.Out? {
      DebugTakesOneByte(d.ports, io);
      assert io.outputData == [area[offset]];
    }
  }

  lemma NoPortPut(v: Setup, step: KvmStep)
    requires v.Valid() && !FromRaw(ExitReason(AreaOf(step, v.size))).Io?
    ensures DebugPut(step.area) == []
  {
    RawFields(step, v.size);
    hide ExitReason; hide Raw;
  }

  /** One exit of a run and the debug log. */
  lemma StepDebug(v: Setup, step: KvmStep, d: Devices)
    requires v.Valid() && d.ports.debugPort.Some?
    ensures var o := OutcomeOf(v, AreaOf(step, v.size), d, step);
            && o.devices.ports.debugPort.Some?
            && o.devices.ports.debugPort.value.bytes
            == d.ports.debugPort.value.bytes
               + if o.result.Ok? && o.result.value.Continue? then DebugPut(step.area) else []
  {
    var area := AreaOf(step, v.size);
    var o := OutcomeOf(v, area, d, step);
    var log := d.ports.debugPort.value.bytes;
    assert log + [] == log;
    OutcomeExact(v, area, d, step);
    PortOutcomeExact(v, area, d);
    MmioOutcomeExact(v, area, d, step.virtio);
    hide PortOutcome; hide MmioOutcome; hide PortIo.Service; hide M.Dispatch; hide PortIoExitOf; hide MmioExitOf;
    hide RunIo; hide ExitReason; hide AreaOf; hide DebugPut; hide Diagnostic;
    match o.result
    case Ok(Continue(ServicedPortIo(io))) => PortPut(v, step, d, io); PortIo.DebugStep(d.ports, io);
    case Ok(Continue(ServicedMmio(_))) => NoPortPut(v, step);
    case _ =>
  }

  /** However a run ends, the debug log is what it was followed by one byte for each serviced output
      to port 0xe9: the byte of that exit's area at its data offset. */
  lemma {:induction false} DebugLogIsOutput(v: Setup, exits: nat -> KvmStep, limit: u32, n: nat, d: Devices,
                                            ios: seq<P.PortIoExit>, accesses: seq<M.MmioExit>)
    requires v.Valid() && n <= limit && d.ports.debugPort.Some?
    ensures var end := RunFrom(v, exits, limit, n, d, ios, accesses);
            && n <= Serviced(end) && end.devices.ports.debugPort.Some?
            && end.devices.ports.debugPort.value.bytes
            == d.ports.debugPort.value.bytes + DebugOutput(exits, n, Serviced(end))
    decreases limit - n
  {
    hide RunFrom; hide OutcomeOf; hide AttachTrace; hide Trace; hide AreaOf; hide DebugPut;
    var log := d.ports.debugPort.value.bytes;
    if n == limit || !exits(n).succeeds {
      RunEnds(v, exits, limit, n, d, ios, accesses);
    } else {
      var o := OutcomeOf(v, AreaOf(exits(n), v.size), d, exits(n));
      RunStep(v, exits, limit, n, d, ios, accesses);
      StepDebug(v, exits(n), d);
      OutcomeExact(v, AreaOf(exits(n), v.size), d, exits(n));
      match o.result
      case Ok(Continue(ServicedPortIo(io))) => DebugLogIsOutput(v, exits, limit, n + 1, o.devices, ios + [io],
        accesses);
      case Ok(Continue(ServicedMmio(access))) =>
        DebugLogIsOutput(v, exits, limit, n + 1, o.devices, ios, accesses + [access]);
      case Ok(Stopped(_)) =>
      case Err(error) => AttachKeepsKind(error, Trace(exits, n + 1, v.size));
    }
  }

  /** An access a byte device accepts has one byte of data. */
  lemma DeviceTakesOneByte(s: M.BusState, access: M.MmioExit, reply: M.VirtioReply, i: nat)
    requires M.Valid(s) && i < |s.byteDevices| && s.byteDevices[i].Handles(access.address)
    requires M.Dispatch(s, access, reply).1.Ok?
    ensures access.length == 1 && (access.direction.Write? ==> |access.writeData| == 1)
  {
    DeviceAnswers(s, access, reply, i);
    M.HandleEffect(s.byteDevices[i], access);
  }

  lemma DevicePut(v: Setup, step: KvmStep, d: Devices, access: M.MmioExit, i: nat)
    requires v.Valid() && M.Valid(d.bus) && i < |d.bus.byteDevices|
    requires MmioExitOf(v.id, AreaOf(step, v.size)) == Ok(access) && M.Dispatch(d.bus, access, step.virtio).1.Ok?
    ensures var dev := d.bus.byteDevices[i];
            MmioPut(step.area, dev.Span())
            == if access.direction.Write? && dev.Handles(access.address) then access.writeData else []
  {
    var area := AreaOf(step, v.size);
    RawFields(step, v.size);
    if d.bus.byteDevices[i].Handles(access.address) { DeviceTakesOneByte(d.bus, access, step.virtio, i); }
    hide M.Dispatch; hide M.Valid; hide U64At; hide U32At; hide Raw;
    if access.direction.Write? && access.length == 1 { assert area[40..41] == [area[40]]; }
  }

  lemma NoMmioPut(v: Setup, step: KvmStep, range: M.Range)
    requires v.Valid() && !FromRaw(ExitReason(AreaOf(step, v.size))).Mmio?
    ensures MmioPut(step.area, range) == []
  {
    RawFields(step, v.size);
    hide ExitReason; hide Raw;
  }

  /** One exit of a run and the log of a byte device. */
  lemma StepDevice(v: Setup, step: KvmStep, d: Devices, i: nat)
    requires v.Valid() && M.Valid(d.bus) && i < |d.bus.byteDevices|
    ensures var o, dev := OutcomeOf(v, AreaOf(step, v.size), d, step), d.bus.byteDevices[i];
            && M.Valid(o.devices.bus) && i < |o.devices.bus.byteDevices|
            && o.devices.bus.byteDevices[i].Span() == dev.Span()
            && o.devices.bus.byteDevices[i].writes
            == dev.writes + if o.result.Ok? && o.result.value.Continue? then MmioPut(step.area, dev.Span()) else []
  {
    var area := AreaOf(step, v.size);
    var o := OutcomeOf(v, area, d, step);
    var dev := d.bus.byteDevices[i];
    assert dev.writes + [] == dev.writes;
    OutcomeExact(v, area, d, step);
    PortOutcomeExact(v, area, d);
    MmioOutcomeExact(v, area, d, step.virtio);
    hide PortOutcome; hide MmioOutcome; hide PortIo.Service; hide M.Dispatch; hide PortIoExitOf; hide MmioExitOf;
    hide RunIo; hide ExitReason; hide AreaOf; hide MmioPut; hide Diagnostic; hide M.Valid;
    match o.result
    case Ok(Continue(ServicedMmio(access))) =>
      DevicePut(v, step, d, access, i);
      WriteLogged(d.bus, access, step.virtio, i);
      M.DispatchKeepsRanges(d.bus, access, step.virtio);
    case Ok(Continue(ServicedPortIo(_))) => NoMmioPut(v, step, dev.Span());
    case _ =>
  }

  /** However a run ends, each byte device's log is what it was followed by one byte for each
      serviced write into its range: the first data byte of that exit's area. */
  lemma {:induction false} DeviceLogIsOutput(v: Setup, exits: nat -> KvmStep, limit: u32, n: nat, d: Devices,
                                             ios: seq<P.PortIoExit>, accesses: seq<M.MmioExit>, i: nat)
    requires v.Valid() && n <= limit && M.Valid(d.bus) && i < |d.bus.byteDevices|
    ensures var end, dev := RunFrom(v, exits, limit, n, d, ios, accesses), d.bus.byteDevices[i];
            && n <= Serviced(end) && i < |end.devices.bus.byteDevices|
            && end.devices.bus.byteDevices[i].Span() == dev.Span()
            && end.devices.bus.byteDevices[i].writes
            == dev.writes + MmioOutput(exits, n, Serviced(end), dev.Span())
    decreases limit - n
  {
    hide RunFrom; hide OutcomeOf; hide AttachTrace; hide Trace; hide AreaOf; hide MmioPut; hide M.Valid;
    var writes := d.bus.byteDevices[i].writes;
    if n == limit || !exits(n).succeeds {
      RunEnds(v, exits, limit, n, d, ios, accesses);
    } else {
      var o := OutcomeOf(v, AreaOf(exits(n), v.size), d, exits(n));
      RunStep(v, exits, limit, n, d, ios, accesses);
      StepDevice(v, exits(n), d, i);
      OutcomeExact(v, AreaOf(exits(n), v.size), d, exits(n));
      match o.result
      case Ok(Continue(ServicedPortIo(io))) =>
        DeviceLogIsOutput(v, exits, limit, n + 1, o.devices, ios + [io], accesses, i);
      case Ok(Continue(ServicedMmio(access))) =>
        DeviceLogIsOutput(v, exits, limit, n + 1, o.devices, ios, accesses + [access], i);
      case Ok(Stopped(_)) =>
      case Err(error) => AttachKeepsKind(error, Trace(exits, n + 1, v.size));
    }
  }
}
