/** PCI configuration mechanism #1 with one function and an optional MSI capability
    (src/pci.rs), as in sections 3.2.2.3.2 and 6.8.1 of the PCI Local Bus 3.0 specification. */
module Pci {
  import opened Words

  const DEBUG_PORT: u16 := 0xe9
  const CONFIG_ADDRESS_PORT: u16 := 0xcf8
  const CONFIG_DATA_PORT: u16 := 0xcfc
  const CONFIG_ENABLE: u32 := 0x8000_0000
  const REGISTER_MASK: u32 := 0xfc
  const FUNCTION_DEVICE: nat := 1
  const CAP_ID_MSI: nat := 5
  const MSI_CAPABILITY_OFFSET: nat := 0x74
  const MSI_ADDRESS_OFFSET: nat := 0x78
  const MSI_DATA_OFFSET: nat := 0x7c

  datatype PortDirection = In | Out

  datatype PortIoExit = PortIoExit(direction: PortDirection, size: u8, port: u16, count: u32, outputData: seq<u8>)

  datatype PortIoError =
    | UnhandledPort(io: PortIoExit)
    | UnsupportedDebugAccess(io: PortIoExit)
    | InvalidOutputPayload(port: u16, actual: nat)

  datatype PciService = Output | Input(bytes: seq<u8>)

  // ---------------------------------------------------------------- MSI capability

  datatype MsiMessage = MsiMessage(address: u32, data: u16)

  datatype MsiCapability = MsiCapability(control: u16, address: u32, data: u16) {

    function ReadDword(offset: nat): Option<u32> {
      if offset == MSI_CAPABILITY_OFFSET then Some(CAP_ID_MSI + 0x1_0000 * (control as int))
      else if offset == MSI_ADDRESS_OFFSET then Some(address)
      else if offset == MSI_DATA_OFFSET then Some(data)
      else None
    }

    /** The new capability, if the write is accepted. */
    function WriteDword(offset: nat, value: u32): Option<MsiCapability> {
      if offset == MSI_CAPABILITY_OFFSET then
        if value % 0x1_0000 != CAP_ID_MSI || And(value / 0x1_0000, 0xfffe) != 0 then None
        else Some(this.(control := value / 0x1_0000))
      else if offset == MSI_ADDRESS_OFFSET then Some(this.(address := value))
      else if offset == MSI_DATA_OFFSET then
        if value / 0x1_0000 != 0 then None else Some(this.(data := value))
      else None
    }

    function Message(): Option<MsiMessage> {
      if And(control, 1) == 0 then None else Some(MsiMessage(address, data))
    }
  }

  const NEW_MSI: MsiCapability := MsiCapability(0, 0, 0)

  /** The writes the capability accepts: an exact identifier with no control bit but enable, any
      address, 16-bit data. */
  predicate Accepts(offset: nat, value: u32) {
    || (offset == MSI_CAPABILITY_OFFSET && (value == CAP_ID_MSI || value == 0x1_0000 + CAP_ID_MSI))
    || offset == MSI_ADDRESS_OFFSET
    || (offset == MSI_DATA_OFFSET && value < 0x1_0000)
  }

  lemma WriteExact(m: MsiCapability, offset: nat, value: u32)
    ensures m.WriteDword(offset, value).Some? <==> Accepts(offset, value)
  {
    if offset == MSI_CAPABILITY_OFFSET { ControlBits(value / 0x1_0000); }
  }

  lemma ControlBits(control: u16)
    ensures And(control, 0xfffe) == 0 <==> control <= 1
    ensures And(control, 1) == control % 2
  {
    hide And;
    EnableBit(control);
    ReservedBits(control);
  }

  lemma EnableBit(control: u16)
    ensures And(control, 1) == control % 2
  {
    hide And;
    assert Low(control, 0) == 0 && Pow2(0) == 1 && Pow2(1) == 2;
    hide Low; hide Pow2;
    LowIsMod(control, 1, 2);
    AndRange(control, 1, 0);
  }

  lemma ReservedBits(control: u16)
    ensures And(control, 0xfffe) == control - control % 2
  {
    hide And; hide Low;
    assert Pow2(1) == 2;
    hide Pow2;
    WordSizes();
    LowIsMod(control, 1, 2);
    LowIsMod(control, 16, 0x1_0000);
    AndRange(control, 16, 1);
  }

  // ---------------------------------------------------------------- the function behind the mechanism

  /** A configuration space: read-only but for the MSI capability a random-number function may
      carry. `image` is the fixed space of the function. */
  datatype PciFunction = PciFunction(image: nat -> u32, msi: Option<MsiCapability>) {

    function ReadDword(offset: nat): u32 {
      if msi.Some? && msi.value.ReadDword(offset).Some? then msi.value.ReadDword(offset).value
      else if offset == 0x64 && msi.Some? then LinkCapability(image(offset))
      else image(offset)
    }

    function WriteDword(offset: nat, value: u32): Option<PciFunction> {
      if msi.None? then None
      else match msi.value.WriteDword(offset, value)
        case Some(m) => Some(this.(msi := Some(m)))
        case None => None
    }

    function Message(): Option<MsiMessage> { if msi.None? then None else msi.value.Message() }
  }

  /** The dword with its second byte pointing at the MSI capability. */
  function LinkCapability(dword: u32): u32 {
    dword / 0x1_0000 * 0x1_0000 + MSI_CAPABILITY_OFFSET * 0x100 + dword % 0x100
  }

  // ---------------------------------------------------------------- configuration cycles

  datatype PciConfig = PciConfig(address: u32, device: PciFunction)

  predicate HandlesPort(port: u16) { port == CONFIG_ADDRESS_PORT || port == CONFIG_DATA_PORT }

  /** The register the latched address selects, if it names the one function. */
  function SelectedOffset(address: u32): Option<nat> {
    if And(address, CONFIG_ENABLE) == 0 then None
    else if And(address / 0x1_0000, 0xff) != 0 || And(address / 0x800, 0x1f) != FUNCTION_DEVICE
            || And(address / 0x100, 0x7) != 0 then None
    else Some(And(address, REGISTER_MASK))
  }

  function Dispatch(c: PciConfig, io: PortIoExit): (PciConfig, Result<PciService, PortIoError>) {
    if io.size != 4 || io.count != 1 then (c, Err(UnhandledPort(io)))
    else if io.port == CONFIG_ADDRESS_PORT && io.direction.Out? then
      if |io.outputData| != 4 then (c, Err(UnhandledPort(io)))
      else (c.(address := U32At(io.outputData, 0)), Ok(Output))
    else if io.port == CONFIG_ADDRESS_PORT then (c, Ok(Input(LeBytes(c.address, 4))))
    else if io.port == CONFIG_DATA_PORT && io.direction.In? then
      var value: u32 := match SelectedOffset(c.address)
                        case None => 0xffff_ffff
                        case Some(offset) => c.device.ReadDword(offset);
      (c, Ok(Input(LeBytes(value, 4))))
    else if io.port == CONFIG_DATA_PORT then
      if |io.outputData| != 4 || SelectedOffset(c.address).None? then (c, Err(UnhandledPort(io)))
      else match c.device.WriteDword(SelectedOffset(c.address).value, U32At(io.outputData, 0))
        case Some(f) => (c.(device := f), Ok(Output))
        case None => (c, Err(UnhandledPort(io)))
    else (c, Err(UnhandledPort(io)))
  }

  function Run(c: PciConfig, ios: seq<PortIoExit>): PciConfig {
    if ios == [] then c else Dispatch(Run(c, ios[..|ios| - 1]), ios[|ios| - 1]).0
  }

  // ---------------------------------------------------------------- what a run has programmed

  predicate IsDwordWrite(io: PortIoExit, port: u16) {
    io.port == port && io.direction.Out? && io.size == 4 && io.count == 1 && |io.outputData| == 4
  }

  /** The address latched after a run: that of the last dword write to the address port. */
  function Latched(initial: u32, ios: seq<PortIoExit>): u32 {
    if ios == [] then initial
    else
      var io := ios[|ios| - 1];
      if IsDwordWrite(io, CONFIG_ADDRESS_PORT) then U32At(io.outputData, 0) else Latched(initial, ios[..|ios| - 1])
  }

  /** The value of the last acceptable dword write to a register of the capability. */
  function LastWrite(initial: u32, ios: seq<PortIoExit>, offset: nat): Option<u32> {
    if ios == [] then None
    else
      var before, io := ios[..|ios| - 1], ios[|ios| - 1];
      if IsDwordWrite(io, CONFIG_DATA_PORT) && SelectedOffset(Latched(initial, before)) == Some(offset)
         && Accepts(offset, U32At(io.outputData, 0))
      then Some(U32At(io.outputData, 0))
      else LastWrite(initial, before, offset)
  }

  function ProgrammedOr(last: Option<u32>, otherwise: u32): u32 { match last case Some(v) => v case None => otherwise }

  /** Over any run of cycles the latch and the three capability registers hold exactly the last
      acceptable value written to each. */
  lemma {:induction false} RunState(c: PciConfig, ios: seq<PortIoExit>)
    requires c.device.msi.Some?
    ensures Run(c, ios).address == Latched(c.address, ios)
    ensures Run(c, ios).device.msi.Some?
    ensures var m, m0 := Run(c, ios).device.msi.value, c.device.msi.value;
            && m.address == ProgrammedOr(LastWrite(c.address, ios, MSI_ADDRESS_OFFSET), m0.address)
            && m.data == ProgrammedOr(LastWrite(c.address, ios, MSI_DATA_OFFSET), m0.data)
            && m.control == (match LastWrite(c.address, ios, MSI_CAPABILITY_OFFSET)
                             case Some(v) => v / 0x1_0000 case None => m0.control)
  {
    hide SelectedOffset;
    if ios != [] {
      var before, io := ios[..|ios| - 1], ios[|ios| - 1];
      RunState(c, before);
      var c1 := Run(c, before);
      if IsDwordWrite(io, CONFIG_DATA_PORT) && SelectedOffset(c1.address).Some? {
        WriteExact(c1.device.msi.value, SelectedOffset(c1.address).value, U32At(io.outputData, 0));
      }
    }
  }

  /** An MSI message exists exactly when the last accepted capability write set enable, and it
      carries the last accepted address and data. */
  lemma MessageExact(c: PciConfig, ios: seq<PortIoExit>)
    requires c.device.msi == Some(NEW_MSI)
    ensures Run(c, ios).device.Message()
         == if LastWrite(c.address, ios, MSI_CAPABILITY_OFFSET) == Some(0x1_0000 + CAP_ID_MSI)
            then Some(MsiMessage(ProgrammedOr(LastWrite(c.address, ios, MSI_ADDRESS_OFFSET), 0),
                                 DataOf(LastWrite(c.address, ios, MSI_DATA_OFFSET))))
            else None
  {
    RunState(c, ios);
    LastWriteAccepted(c.address, ios, MSI_CAPABILITY_OFFSET);
    LastWriteAccepted(c.address, ios, MSI_DATA_OFFSET);
    ControlBits(Run(c, ios).device.msi.value.control);
  }

  function DataOf(last: Option<u32>): u16 { if last.Some? && last.value < 0x1_0000 then last.value else 0 }

  lemma {:induction false} LastWriteAccepted(initial: u32, ios: seq<PortIoExit>, offset: nat)
    ensures LastWrite(initial, ios, offset).Some? ==> Accepts(offset, LastWrite(initial, ios, offset).value)
  {
    if ios != [] { LastWriteAccepted(initial, ios[..|ios| - 1], offset); }
  }

  /** A refused cycle changes nothing, and a read never does. */
  lemma RefusedCycleHarmless(c: PciConfig, io: PortIoExit)
    ensures Dispatch(c, io).1.Err? ==> Dispatch(c, io).0 == c
    ensures io.direction.In? ==> Dispatch(c, io).0 == c
  {
  }

  /** The writes of a run that were accepted. */
  function AcceptedWrites(c: PciConfig, ios: seq<PortIoExit>): seq<PortIoExit> {
    if ios == [] then []
    else
      var before, io := ios[..|ios| - 1], ios[|ios| - 1];
      AcceptedWrites(c, before) + if io.direction.Out? && Dispatch(Run(c, before), io).1.Ok? then [io] else []
  }

  /** Refused cycles and reads leave no trace in a run: it ends where its accepted writes alone end,
      and they are all accepted in that shorter run too. */
  lemma {:induction false} OnlyAcceptedWritesMatter(c: PciConfig, ios: seq<PortIoExit>)
    ensures Run(c, AcceptedWrites(c, ios)) == Run(c, ios)
    ensures AcceptedWrites(c, AcceptedWrites(c, ios)) == AcceptedWrites(c, ios)
  {
    hide Dispatch;
    if ios != [] {
      var before, io := ios[..|ios| - 1], ios[|ios| - 1];
      OnlyAcceptedWritesMatter(c, before);
      RefusedCycleHarmless(Run(c, before), io);
      var kept := AcceptedWrites(c, before);
      if io.direction.Out? && Dispatch(Run(c, before), io).1.Ok? {
        assert (kept + [io])[..|kept|] == kept;
      } else {
        assert kept + [] == kept;
      }
    }
  }

  /** Without the capability every data-port write is refused and no message ever exists. */
  lemma {:induction false} NoCapabilityNoMessage(c: PciConfig, ios: seq<PortIoExit>)
    requires c.device.msi.None?
    ensures Run(c, ios).device == c.device && Run(c, ios).device.Message().None?
  {
    if ios != [] { NoCapabilityNoMessage(c, ios[..|ios| - 1]); }
  }

  // ---------------------------------------------------------------- selectors

  /** The selector guests use for a register of the one function. */
  function ConfigSelector(offset: u8): nat {
    Or(Or(CONFIG_ENABLE, FUNCTION_DEVICE * 0x800), And(offset, REGISTER_MASK))
  }

  function Latch(offset: u8): PortIoExit {
    PortIoExit(Out, 4, CONFIG_ADDRESS_PORT, 1, LeBytes(ConfigSelector(offset), 4))
  }

  const READ_DATA: PortIoExit := PortIoExit(In, 4, CONFIG_DATA_PORT, 1, [])

  lemma LatchTakes(c: PciConfig, offset: u8)
    ensures ConfigSelector(offset) < 0x1_0000_0000
    ensures Dispatch(c, Latch(offset)).0 == c.(address := ConfigSelector(offset))
  {
    SelectorSelects(offset);
    hide ConfigSelector; hide LeBytes; hide LeValue; hide SelectedOffset;
    var io := Latch(offset);
    assert io.outputData[0..4] == io.outputData;
    LeWord(ConfigSelector(offset), 4);
  }

  /** Whatever was done before, selecting a capability register and reading it returns the last
      value accepted for it. */
  lemma ProgrammedValuesReadBack(c: PciConfig, ios: seq<PortIoExit>, offset: u8)
    requires c.device.msi == Some(NEW_MSI)
    requires offset == MSI_CAPABILITY_OFFSET || offset == MSI_ADDRESS_OFFSET || offset == MSI_DATA_OFFSET
    ensures var latched := Dispatch(Run(c, ios), Latch(offset)).0;
            var initial := if offset == MSI_CAPABILITY_OFFSET then CAP_ID_MSI else 0;
            var expected := ProgrammedOr(LastWrite(c.address, ios, offset), initial);
            Dispatch(latched, READ_DATA).1 == Ok(Input(LeBytes(expected, 4)))
  {
    hide SelectedOffset; hide ConfigSelector; hide LeBytes; hide Run; hide LastWrite; hide Latch;
    LatchTakes(Run(c, ios), offset);
    SelectorSelects(offset);
    RunState(c, ios);
    LastWriteAccepted(c.address, ios, offset);
  }

  /** Latching the selector of a register selects that register, dword-aligned. */
  lemma SelectorSelects(offset: u8)
    ensures ConfigSelector(offset) < 0x1_0000_0000
    ensures SelectedOffset(ConfigSelector(offset)) == Some(offset - offset % 4)
  {
    hide And; hide Or; hide Pow2; hide SelectedOffset;
    var register := offset - offset % 4;
    MaskFields(offset);
    PowerFacts();
    OrIsAdd(CONFIG_ENABLE, 0x800, 12);
    OrIsAdd(CONFIG_ENABLE + 0x800, register, 8);
    SelectorFields(0x8000_0800 + register, register);
  }

  lemma SelectorFields(a: u32, register: nat)
    requires a == 0x8000_0800 + register && register < 0x100 && register % 4 == 0
    ensures SelectedOffset(a) == Some(register)
  {
    hide And;
    MaskFields(a);
    MaskFields(a / 0x100);
    MaskFields(a / 0x800);
    MaskFields(a / 0x1_0000);
    ModUnique(a, 0x800, 0x10_0001, register);
    ModUnique(a, 0x100, 0x80_0008, register);
    ModUnique(a, 0x1_0000, 0x8000, 0x800 + register);
    ModUnique(a, 0x8000_0000, 1, 0x800 + register);
  }

  /** An address in the terms of the configuration mechanism: enabled, bus 0, device 1, function 0. */
  predicate NamesFunction(a: u32) {
    a / 0x8000_0000 == 1 && a / 0x1_0000 % 0x100 == 0 && a / 0x800 % 0x20 == 1 && a / 0x100 % 8 == 0
  }

  /** The register such an address names, dword-aligned. */
  function RegisterOf(a: u32): nat { a % 0x100 / 4 * 4 }

  lemma AlignedRegister(a: u32)
    ensures RegisterOf(a) == a % 0x100 - a % 4
  {
    var low := a % 0x100;
    ModUnique(a, 4, 64 * (a / 0x100) + low / 4, low % 4);
  }

  /** The masks select exactly those addresses, and of them the register, dword-aligned. */
  lemma SelectedExact(a: u32)
    ensures SelectedOffset(a) == if NamesFunction(a) then Some(RegisterOf(a)) else None
  {
    hide And;
    AlignedRegister(a);
    MaskFields(a);
    MaskFields(a / 0x100);
    MaskFields(a / 0x800);
    MaskFields(a / 0x1_0000);
  }

  /** The four bytes of a register as a guest sees them: the MSI capability, linked from byte 0x65,
      over the function's fixed image. */
  function RegisterBytes(f: PciFunction, offset: nat): (bytes: seq<u8>)
    ensures |bytes| == 4
  {
    if f.msi.None? then LeBytes(f.image(offset), 4)
    else if offset == 0x64 then LeBytes(f.image(offset), 4)[1 := 0x74]
    else if offset == 0x74 then [5, 0] + LeBytes(f.msi.value.control, 2)
    else if offset == 0x78 then LeBytes(f.msi.value.address, 4)
    else if offset == 0x7c then LeBytes(f.msi.value.data, 2) + [0, 0]
    else LeBytes(f.image(offset), 4)
  }

  lemma Four(value: u32)
    ensures LeBytes(value, 4)
         == [value % 0x100, value / 0x100 % 0x100, value / 0x1_0000 % 0x100, value / 0x100_0000 % 0x100]
  {
    assert LeBytes(value / 0x100 / 0x100, 2) == [value / 0x1_0000 % 0x100, value / 0x100_0000 % 0x100];
  }

  lemma Two(value: u16)
    ensures LeBytes(value, 2) == [value % 0x100, value / 0x100 % 0x100]
  {
  }

  lemma CapabilityBytes(control: u16)
    ensures LeBytes(5 + 0x1_0000 * control as int, 4) == [5, 0] + LeBytes(control, 2)
  {
    hide LeBytes;
    var dword := 5 + 0x1_0000 * control as int;
    Four(dword);
    Two(control);
    assert dword / 0x100 == 0x100 * control as int && dword / 0x1_0000 == control &&
        dword / 0x100_0000 == control / 0x100;
  }

  lemma DataBytes(data: u16)
    ensures LeBytes(data, 4) == LeBytes(data, 2) + [0, 0]
  {
    hide LeBytes;
    Four(data);
    Two(data);
  }

  lemma LinkBytes(dword: u32)
    ensures LeBytes(LinkCapability(dword), 4) == LeBytes(dword, 4)[1 := 0x74]
  {
    hide LeBytes;
    var high, low := dword / 0x1_0000, dword % 0x100;
    var linked := LinkCapability(dword);
    assert linked == 0x1_0000 * high + 0x7400 + low;
    ModUnique(linked, 0x100, 0x100 * high + 0x74, low);
    ModUnique(linked, 0x1_0000, high, 0x7400 + low);
    ModUnique(0x100 * high + 0x74, 0x100, high, 0x74);
    assert linked / 0x100_0000 == high / 0x100 == dword / 0x100_0000;
    Four(dword);
    Four(linked);
  }

  lemma RegisterBytesExact(f: PciFunction, offset: nat)
    ensures RegisterBytes(f, offset) == LeBytes(f.ReadDword(offset), 4)
  {
    hide LeBytes; hide LinkCapability;
    LinkBytes(f.image(offset));
    if f.msi.Some? {
      CapabilityBytes(f.msi.value.control);
      DataBytes(f.msi.value.data);
    }
  }

  /** A data-port read returns the named register, or all ones when no function is named. */
  lemma DataReadExact(c: PciConfig)
    ensures Dispatch(c, READ_DATA)
         == (c, Ok(Input(if NamesFunction(c.address) then RegisterBytes(c.device, RegisterOf(c.address))
                         else [0xff, 0xff, 0xff, 0xff])))
  {
    SelectedExact(c.address);
    Four(0xffff_ffff);
    hide SelectedOffset; hide NamesFunction; hide LeBytes; hide RegisterBytes;
    RegisterBytesExact(c.device, RegisterOf(c.address));
  }

  /** Over any run the latch is the last address written and the image is what it was. */
  lemma {:induction false} RunKeepsImage(c: PciConfig, ios: seq<PortIoExit>)
    ensures Run(c, ios).address == Latched(c.address, ios)
    ensures Run(c, ios).device.image == c.device.image && Run(c, ios).device.msi.Some? == c.device.msi.Some?
  {
    hide SelectedOffset;
    if ios != [] { RunKeepsImage(c, ios[..|ios| - 1]); }
  }

  const READ_ADDRESS: PortIoExit := PortIoExit(In, 4, CONFIG_ADDRESS_PORT, 1, [])

  /** After any run the address port reads back the last address written. */
  lemma AddressReadsBack(c: PciConfig, ios: seq<PortIoExit>)
    ensures Dispatch(Run(c, ios), READ_ADDRESS).1 == Ok(Input(LeBytes(Latched(c.address, ios), 4)))
  {
    RunKeepsImage(c, ios);
    hide Run; hide Latched; hide LeBytes; hide SelectedOffset;
  }

  /** What a data read gives that the capability's state has no part in: all ones without a named
      function, and otherwise the image, with the link to the capability when there is one. */
  function FixedRead(image: nat -> u32, capability: bool, a: u32): Option<seq<u8>> {
    if !NamesFunction(a) then Some([0xff, 0xff, 0xff, 0xff])
    else if capability && RegisterOf(a) in [0x74, 0x78, 0x7c] then None
    else if capability && RegisterOf(a) == 0x64 then Some(LeBytes(image(0x64), 4)[1 := 0x74])
    else Some(LeBytes(image(RegisterOf(a)), 4))
  }

  /** After any run that is what a data read gives, for the last address written. */
  lemma FixedReadsOverRuns(c: PciConfig, ios: seq<PortIoExit>)
    ensures var fixed := FixedRead(c.device.image, c.device.msi.Some?, Latched(c.address, ios));
            fixed.Some? ==> Dispatch(Run(c, ios), READ_DATA).1 == Ok(Input(fixed.value))
  {
    RunKeepsImage(c, ios);
    DataReadExact(Run(c, ios));
    hide Run; hide Latched; hide NamesFunction; hide LeBytes; hide SelectedOffset; hide RegisterOf;
  }

  /** The masks of the selector, as remainders. */
  lemma MaskFields(a: nat)
    requires a < 0x1_0000_0000
    ensures And(a, 0xff) == a % 0x100 && And(a, 0x1f) == a % 0x20 && And(a, 0x7) == a % 8
    ensures And(a, 0xfc) == a % 0x100 - a % 4
    ensures And(a, 0x8000_0000) == a - a % 0x8000_0000
  {
    hide And;
    LowFacts(a);
    hide Low; hide Pow2;
    PowerFacts();
    AndRange(a, 8, 0);
    AndRange(a, 5, 0);
    AndRange(a, 3, 0);
    AndRange(a, 8, 2);
    AndRange(a, 32, 31);
  }

  lemma LowFacts(a: nat)
    requires a < 0x1_0000_0000
    ensures Low(a, 0) == 0 && Low(a, 2) == a % 4 && Low(a, 3) == a % 8
    ensures Low(a, 5) == a % 0x20 && Low(a, 8) == a % 0x100
    ensures Low(a, 31) == a % 0x8000_0000 && Low(a, 32) == a
  {
    assert Low(a, 0) == 0;
    hide Low; hide Pow2;
    assert Low(a, 2) == a % 4 by { PowerFacts(); LowIsMod(a, 2, 4); }
    assert Low(a, 3) == a % 8 by { PowerFacts(); LowIsMod(a, 3, 8); }
    assert Low(a, 5) == a % 0x20 by { PowerFacts(); LowIsMod(a, 5, 0x20); }
    assert Low(a, 8) == a % 0x100 by { PowerFacts(); LowIsMod(a, 8, 0x100); }
    assert Low(a, 31) == a % 0x8000_0000 by { PowerFacts(); LowIsMod(a, 31, 0x8000_0000); }
    assert Low(a, 32) == a by { PowerFacts(); LowIsMod(a, 32, 0x1_0000_0000); ModUnique(a, 0x1_0000_0000, 0, a); }
  }

  lemma PowerFacts()
    ensures Pow2(0) == 1 && Pow2(2) == 4 && Pow2(3) == 8 && Pow2(5) == 0x20 && Pow2(8) == 0x100
    ensures Pow2(12) == 0x1000 && Pow2(31) == 0x8000_0000 && Pow2(32) == 0x1_0000_0000
  {
    WordSizes();
    Pow2At12();
    assert Pow2(32) == 2 * Pow2(31);
  }
}
