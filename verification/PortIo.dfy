/** The port-I/O bus: a debug port that logs bytes, and the PCI configuration ports
    (src/portio.rs). */
module PortIo {
  import opened Words
  import opened Pci

  datatype PortService = Wrote | Response(bytes: seq<u8>)

  datatype DebugPort = DebugPort(bytes: seq<u8>, inputByte: u8) {

    function Handle(io: PortIoExit): (DebugPort, Result<PortService, PortIoError>) {
      if io.size != 1 || io.count != 1 then (this, Err(UnsupportedDebugAccess(io)))
      else match io.direction
        case In => (this, Ok(Response([inputByte])))
        case Out =>
          if |io.outputData| != 1 then (this, Err(InvalidOutputPayload(io.port, |io.outputData|)))
          else (this.(bytes := bytes + io.outputData), Ok(Wrote))
    }
  }

  datatype PortState = PortState(debugPort: Option<DebugPort>, pciConfig: Option<PciConfig>)

  function ConvertService(s: PciService): PortService {
    match s case Output => Wrote case Input(bytes) => Response(bytes)
  }

  function Service(s: PortState, io: PortIoExit): (PortState, Result<PortService, PortIoError>) {
    if io.port == DEBUG_PORT then
      if s.debugPort.None? then (s, Err(UnhandledPort(io)))
      else
        var (d, r) := s.debugPort.value.Handle(io);
        (s.(debugPort := Some(d)), r)
    else if HandlesPort(io.port) then
      if s.pciConfig.None? then (s, Err(UnhandledPort(io)))
      else
        var (c, r) := Pci.Dispatch(s.pciConfig.value, io);
        (s.(pciConfig := Some(c)), match r case Ok(service) => Ok(ConvertService(service)) case Err(e) => Err(e))
    else (s, Err(UnhandledPort(io)))
  }

  /** A payload as the vCPU decodes it: an output carries size times count bytes. */
  predicate WellFormed(io: PortIoExit) {
    io.direction.Out? ==> |io.outputData| == io.size as int * io.count as int
  }

  /** An accepted input is answered with exactly size times count bytes, an accepted output with
      none; a well-formed exit is never refused for its payload; a refusal changes nothing. */
  lemma ResponseFits(s: PortState, io: PortIoExit)
    ensures var (s', r) := Service(s, io);
            && (r.Ok? ==> (r.value.Response? <==> io.direction.In?))
            && (r.Ok? && r.value.Response? ==> |r.value.bytes| == io.size as int * io.count as int)
            && (r.Ok? && io.port == DEBUG_PORT && io.direction.In? ==>
                  s.debugPort.Some? && r.value == Response([s.debugPort.value.inputByte]))
            && (WellFormed(io) ==> !(r.Err? && r.error.InvalidOutputPayload?))
            && (r.Err? ==> s' == s)
  {
  }

  /** Which accesses are accepted: bytes on a present debug port; doublewords on present
      configuration ports, a data write only to a capability register and only with a value it
      takes. The rest is refused, and named as it was asked. */
  lemma AcceptedExact(s: PortState, io: PortIoExit)
    ensures Service(s, io).1.Ok? <==>
            || (&& io.port == 0xe9 && s.debugPort.Some? && io.size == 1 && io.count == 1
                && (io.direction.Out? ==> |io.outputData| == 1))
            || (&& io.port == 0xcf8 && s.pciConfig.Some? && io.size == 4 && io.count == 1
                && (io.direction.Out? ==> |io.outputData| == 4))
            || (&& io.port == 0xcfc && s.pciConfig.Some? && io.size == 4 && io.count == 1
                && (io.direction.Out? ==> |io.outputData| == 4 && DataWriteTaken(s.pciConfig.value, io.outputData)))
    ensures Service(s, io).1.Err? ==>
              Service(s, io).1.error ==
              if io.port == 0xe9 && s.debugPort.Some? then
                if io.size == 1 && io.count == 1 then InvalidOutputPayload(0xe9, |io.outputData|)
                else UnsupportedDebugAccess(io)
              else UnhandledPort(io)
  {
    if io.port == 0xcfc && s.pciConfig.Some? && |io.outputData| ==
        4 { DataWriteExact(s.pciConfig.value, io.outputData); }
    hide SelectedOffset; hide MsiCapability.WriteDword; hide NamesFunction; hide Accepts; hide DataWriteTaken;
  }

  predicate DataWriteTaken(c: PciConfig, data: seq<u8>)
    requires |data| == 4
  {
    NamesFunction(c.address) && c.device.msi.Some? && Accepts(RegisterOf(c.address), U32At(data, 0))
  }

  lemma DataWriteExact(c: PciConfig, data: seq<u8>)
    requires |data| == 4
    ensures SelectedOffset(c.address).Some?
            && c.device.WriteDword(SelectedOffset(c.address).value, U32At(data, 0)).Some?
            <==> DataWriteTaken(c, data)
  {
    SelectedExact(c.address);
    if c.device.msi.Some? { WriteExact(c.device.msi.value, RegisterOf(c.address), U32At(data, 0)); }
    hide SelectedOffset; hide MsiCapability.WriteDword; hide NamesFunction; hide U32At;
  }

  /** The bytes the exits of a run put on the debug port, in order. */
  function DebugBytes(ios: seq<PortIoExit>): seq<u8> {
    if ios == [] then []
    else
      var io := ios[|ios| - 1];
      DebugBytes(ios[..|ios| - 1]) + (if io.port == DEBUG_PORT && io.direction.Out? then io.outputData else [])
  }

  /** An accepted exit extends the debug log by its own debug bytes. */
  lemma DebugStep(s: PortState, io: PortIoExit)
    requires Service(s, io).1.Ok? && s.debugPort.Some?
    ensures Service(s, io).0.debugPort.Some?
    ensures Service(s, io).0.debugPort.value.bytes
         == s.debugPort.value.bytes + (if io.port == DEBUG_PORT && io.direction.Out? then io.outputData else [])
  {
  }

  class PortIoBus {
    var debugPort: Option<DebugPort>
    var pciConfig: Option<PciConfig>

    ghost function State(): PortState
      reads this
    {
      PortState(debugPort, pciConfig)
    }

    constructor (debugPort: Option<DebugPort>, pciConfig: Option<PciConfig>)
      ensures State() == PortState(debugPort, pciConfig)
    {
      this.debugPort, this.pciConfig := debugPort, pciConfig;
    }

    method DispatchIo(io: PortIoExit) returns (r: Result<PortService, PortIoError>)
      modifies this
      ensures (State(), r) == Service(old(State()), io)
    {
      if io.port == DEBUG_PORT {
        if debugPort.None? { return Err(UnhandledPort(io)); }
        var (d, result) := debugPort.value.Handle(io);
        debugPort := Some(d);
        return result;
      }
      if HandlesPort(io.port) {
        if pciConfig.None? { return Err(UnhandledPort(io)); }
        var (c, result) := Pci.Dispatch(pciConfig.value, io);
        pciConfig := Some(c);
        return match result case Ok(service) => Ok(ConvertService(service)) case Err(e) => Err(e);
      }
      return Err(UnhandledPort(io));
    }
  }
}
