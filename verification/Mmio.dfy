/** The MMIO bus and its byte devices (src/mmio.rs): a registry of address ranges, first-match
    dispatch, a pending/line state machine per device, and a queue of virtio notifications.
    A virtio device is its base address register and, per access, whatever it answers. */
module Mmio {
  import opened Words

  const VIRTIO_BAR_SIZE: nat := 0x1000
  const STATUS_OFFSET: nat := 1
  const ACK_OFFSET: nat := 2
  const ACK_VALUE: u8 := 1

  datatype Direction = Read | Write

  datatype MmioExit = MmioExit(address: u64, direction: Direction, length: u32, writeData: seq<u8>)

  datatype Service = Written | ReadBack(bytes: seq<u8>)

  datatype Event = InterruptRequested | LineAssertRequested | LineDeassertRequested | QueueNotified(queue: u16) {
    predicate IsLine() { LineAssertRequested? || LineDeassertRequested? }
  }

  datatype EventRecord = EventRecord(deviceAddress: u64, event: Event)

  datatype RegistrationError =
    | AddressRangeOverflow(address: u64, size: nat)
    | AddressRangeOverlap(address: u64, size: nat, existingAddress: u64, existingSize: nat)

  datatype MmioError =
    | UnhandledAddress(exit: MmioExit)
    | UnsupportedByteDeviceAccess(exit: MmioExit)
    | InvalidWritePayload(address: u64, actual: nat)
    | VirtioRejected

  /** The answer of a virtio device to one access: a rejection, or the bytes a read returns and
      the queue a write notifies. Both device models return exactly as many bytes as asked. */
  datatype VirtioReply = Rejected | Accepted(bytes: nat -> u8, notify: Option<u16>)

  // ---------------------------------------------------------------- address ranges

  datatype Range = Range(base: u64, size: nat) {
    predicate Overflows() { base + size >= U64_LIMIT }
    predicate Handles(address: u64) { !Overflows() && base <= address < base + size }
    predicate Disjoint(other: Range) { base + size <= other.base || other.base + other.size <= base }
  }

  // ---------------------------------------------------------------- byte devices

  datatype Mode = Plain | EdgeInterrupt | LevelInterrupt

  datatype ByteDevice = ByteDevice(address: u64, writes: seq<u8>, readValue: u8, mode: Mode,
                                   edgePending: bool, levelPending: bool, lineAsserted: bool) {

    function Span(): Range { Range(address, if mode.LevelInterrupt? then ACK_OFFSET + 1 else 1) }

    predicate Handles(a: u64) { Span().Handles(a) }

    function Handle(exit: MmioExit): (r: (ByteDevice, Result<Service, MmioError>)) {
      if exit.length != 1 then (this, Err(UnsupportedByteDeviceAccess(exit)))
      else if mode.LevelInterrupt? then HandleLevel(exit)
      else HandlePlain(exit)
    }

    function HandlePlain(exit: MmioExit): (ByteDevice, Result<Service, MmioError>) {
      match exit.direction
      case Read => (this, Ok(ReadBack([readValue])))
      case Write =>
        if |exit.writeData| != 1 then (this, Err(InvalidWritePayload(exit.address, |exit.writeData|)))
        else (this.(writes := writes + exit.writeData, edgePending := edgePending || mode.EdgeInterrupt?), Ok(Written))
    }

    function HandleLevel(exit: MmioExit): (ByteDevice, Result<Service, MmioError>) {
      var offset := exit.address - address;
      if offset == 0 && exit.direction.Write? then
        if |exit.writeData| != 1 then (this, Err(InvalidWritePayload(exit.address, |exit.writeData|)))
        else (this.(writes := writes + exit.writeData, levelPending := true), Ok(Written))
      else if offset == STATUS_OFFSET && exit.direction.Read? then
        (this, Ok(ReadBack([if levelPending then 1 else 0])))
      else if offset == ACK_OFFSET && exit.direction.Write? then
        if |exit.writeData| != 1 then (this, Err(InvalidWritePayload(exit.address, |exit.writeData|)))
        else if exit.writeData[0] != ACK_VALUE then (this, Err(UnsupportedByteDeviceAccess(exit)))
        else (this.(writes := writes + exit.writeData, levelPending := false), Ok(Written))
      else (this, Err(UnsupportedByteDeviceAccess(exit)))
    }

    function TakeEvent(): (ByteDevice, Option<Event>) {
      match mode
      case Plain => (this, None)
      case EdgeInterrupt =>
        if edgePending then (this.(edgePending := false), Some(InterruptRequested)) else (this, None)
      case LevelInterrupt =>
        if levelPending && !lineAsserted then (this.(lineAsserted := true), Some(LineAssertRequested))
        else if !levelPending && lineAsserted then (this.(lineAsserted := false), Some(LineDeassertRequested))
        else (this, None)
    }

    /** Nothing left to announce: no edge is pending and the line follows the pending state. */
    predicate Settled() {
      (mode.EdgeInterrupt? ==> !edgePending) && (mode.LevelInterrupt? ==> lineAsserted == levelPending)
    }
  }

  function NewDevice(address: u64, readValue: u8, mode: Mode): ByteDevice {
    ByteDevice(address, [], readValue, mode, false, false, false)
  }

  /** An access is refused without a trace, or is a read that changes nothing, or is a write that
      is logged. None moves the device or changes what its line was last told. A plain or edge
      device refuses only a malformed access, and only the edge device has a request after a write. */
  lemma HandleEffect(d: ByteDevice, exit: MmioExit)
    ensures var (d', r) := d.Handle(exit);
            && d'.Span() == d.Span() && d'.mode == d.mode && d'.lineAsserted == d.lineAsserted
            && (r.Err? ==> d' == d)
            && (r.Err? && (exit.direction.Write? ==> |exit.writeData| == exit.length) ==>
                  r.error == UnsupportedByteDeviceAccess(exit))
            && (r.Ok? ==> exit.length == 1)
            && (r.Ok? && exit.direction.Read? ==> d' == d && r.value.ReadBack? && |r.value.bytes| == 1)
            && (r.Ok? && exit.direction.Write? ==>
                  r.value.Written? && |exit.writeData| == 1 && d'.writes == d.writes + exit.writeData)
            && (!d.mode.LevelInterrupt? ==>
                  && (r.Ok? <==> exit.length == 1 && (exit.direction.Write? ==> |exit.writeData| == 1))
                  && (r.Ok? && exit.direction.Read? ==> r.value == ReadBack([d.readValue]))
                  && (r.Ok? && exit.direction.Write? ==> d'.edgePending == (d.edgePending || d.mode.EdgeInterrupt?)))
  {
  }

  /** The three registers of a level device. */
  datatype Register = Command | Status | Acknowledge | Absent

  function RegisterAt(d: ByteDevice, address: u64): Register {
    if address == d.address then Command
    else if address == d.address + 1 then Status
    else if address == d.address + 2 then Acknowledge
    else Absent
  }

  /** The register map of a level device: a command raises the pending state, the status reads it,
      and only the exact acknowledgement lowers it; every other one-byte access is refused. */
  lemma LevelRegisters(d: ByteDevice, exit: MmioExit)
    requires d.mode.LevelInterrupt? && exit.length == 1 && (exit.direction.Write? ==> |exit.writeData| == 1)
    ensures var (d', r) := d.Handle(exit);
            var register := RegisterAt(d, exit.address);
            && (r.Ok? <==> if exit.direction.Read? then register.Status?
                           else register.Command? || (register.Acknowledge? && exit.writeData == [1]))
            && (r.Ok? && exit.direction.Read? ==> r.value == ReadBack([if d.levelPending then 1 else 0]))
            && (r.Ok? && exit.direction.Write? ==> d'.levelPending == register.Command?)
  {
  }

  /** Taking an event settles the device; there is an event exactly when it was unsettled, and it
      is the edge's request or the line's change towards the pending state. */
  lemma TakeSettles(d: ByteDevice)
    ensures d.TakeEvent().0.Settled() && d.TakeEvent().0.Span() == d.Span()
    ensures d.TakeEvent().1.None? <==> d.Settled()
    ensures d.Settled() ==> d.TakeEvent().0 == d
    ensures d.TakeEvent().0.levelPending == d.levelPending && d.TakeEvent().0.writes == d.writes
    ensures !d.Settled() ==>
              d.TakeEvent().1 == Some(if d.mode.EdgeInterrupt? then InterruptRequested
                                      else if d.levelPending then LineAssertRequested else LineDeassertRequested)
  {
  }

  // ---------------------------------------------------------------- the bus as a value

  datatype BusState = BusState(byteDevices: seq<ByteDevice>, rng: seq<u64>, blk: seq<u64>, events: seq<EventRecord>)

  function BarRanges(bars: seq<u64>): (rs: seq<Range>)
    ensures |rs| == |bars|
  {
    seq(|bars|, i requires 0 <= i < |bars| => Range(bars[i], VIRTIO_BAR_SIZE))
  }

  function ByteRanges(devices: seq<ByteDevice>): (rs: seq<Range>)
    ensures |rs| == |devices|
  {
    seq(|devices|, i requires 0 <= i < |devices| => devices[i].Span())
  }

  /** Every registered range, in the order the registry walks them. */
  function Ranges(s: BusState): seq<Range> { ByteRanges(s.byteDevices) + BarRanges(s.rng) + BarRanges(s.blk) }

  predicate RangesDisjoint(rs: seq<Range>) {
    forall i, j :: 0 <= i < j < |rs| ==> rs[i].Disjoint(rs[j])
  }

  /** What every bus reached through the constructors and operations keeps: registered ranges
      never meet, an overflowing one stands alone, and the queue holds virtio notifications. */
  predicate Valid(s: BusState) {
    && RangesDisjoint(Ranges(s))
    && (|Ranges(s)| > 1 ==> forall i :: 0 <= i < |Ranges(s)| ==> !Ranges(s)[i].Overflows())
    && (forall i :: 0 <= i < |s.events| ==> s.events[i].event.QueueNotified?)
  }

  const EMPTY: BusState := BusState([], [], [], [])

  function WithDevice(d: ByteDevice): BusState { BusState([d], [], [], []) }

  // ---------------------------------------------------------------- registration

  /** Why a range is refused: the first registered range that overflows or overlaps it. */
  function Conflict(rs: seq<Range>, r: Range): Option<RegistrationError> {
    if rs == [] then None
    else if rs[0].Overflows() then Some(AddressRangeOverflow(rs[0].base, rs[0].size))
    else if r.base < rs[0].base + rs[0].size && rs[0].base < r.base + r.size then
      Some(AddressRangeOverlap(r.base, r.size, rs[0].base, rs[0].size))
    else Conflict(rs[1..], r)
  }

  function EnsureAvailable(rs: seq<Range>, r: Range): Result<(), RegistrationError> {
    if r.Overflows() then Err(AddressRangeOverflow(r.base, r.size))
    else match Conflict(rs, r) case Some(e) => Err(e) case None => Ok(())
  }

  /** A range is available exactly when it fits below 2^64, meets no registered range, and no
      registered range overflows. */
  lemma {:induction false} AvailableExact(rs: seq<Range>, r: Range)
    requires r.size > 0 && forall i :: 0 <= i < |rs| ==> rs[i].size > 0
    ensures EnsureAvailable(rs, r).Ok? <==>
            !r.Overflows() && forall i :: 0 <= i < |rs| ==> !rs[i].Overflows() && rs[i].Disjoint(r)
  {
    if rs != [] {
      AvailableExact(rs[1..], r);
      assert forall i :: 0 < i < |rs| ==> rs[i] == rs[1..][i - 1];
    }
  }

  /** A refusal names the first registered range in the way: one that itself passes 2^64, or one
      that shares an address with the new range. */
  lemma {:induction false} ConflictTells(rs: seq<Range>, r: Range)
    requires Conflict(rs, r).Some?
    ensures exists i :: 0 <= i < |rs| && Conflict(rs[..i], r).None? && BlocksWith(rs[i], r, Conflict(rs, r).value)
  {
    if Blocks(rs[0], r) {
      assert rs[..0] == [] && BlocksWith(rs[0], r, Conflict(rs, r).value);
    } else {
      ConflictTells(rs[1..], r);
      var i :| 0 <= i < |rs[1..]| && Conflict(rs[1..][..i], r).None? &&
          BlocksWith(rs[1..][i], r, Conflict(rs, r).value);
      assert rs[..i + 1][1..] == rs[1..][..i] && rs[1..][i] == rs[i + 1];
    }
  }

  predicate Blocks(existing: Range, r: Range) {
    existing.base + existing.size >= U64_LIMIT
    || (r.base < existing.base + existing.size && existing.base < r.base + r.size)
  }

  predicate BlocksWith(existing: Range, r: Range, error: RegistrationError) {
    match error
    case AddressRangeOverflow(base, size) => existing == Range(base, size) && base + size >= U64_LIMIT
    case AddressRangeOverlap(address, length, base, size) =>
      r == Range(address, length) && existing == Range(base, size) && address < base + size && base < address + length
  }

  function RegisterByte(s: BusState, d: ByteDevice): (BusState, Result<(), RegistrationError>) {
    var available := EnsureAvailable(Ranges(s), d.Span());
    if available.Ok? then (s.(byteDevices := s.byteDevices + [d]), available) else (s, available)
  }

  function RegisterRng(s: BusState, bar: u64): (BusState, Result<(), RegistrationError>) {
    var available := EnsureAvailable(Ranges(s), Range(bar, VIRTIO_BAR_SIZE));
    if available.Ok? then (s.(rng := s.rng + [bar]), available) else (s, available)
  }

  function RegisterBlk(s: BusState, bar: u64): (BusState, Result<(), RegistrationError>) {
    var available := EnsureAvailable(Ranges(s), Range(bar, VIRTIO_BAR_SIZE));
    if available.Ok? then (s.(blk := s.blk + [bar]), available) else (s, available)
  }

  // ---------------------------------------------------------------- dispatch

  /** The first byte device that handles an address. */
  function FindByte(devices: seq<ByteDevice>, address: u64): (r: Option<nat>)
    ensures r.Some? ==> r.value < |devices| && devices[r.value].Handles(address)
    ensures r.Some? ==> forall j :: 0 <= j < r.value ==> !devices[j].Handles(address)
    ensures r.None? ==> forall j :: 0 <= j < |devices| ==> !devices[j].Handles(address)
  {
    if devices == [] then None
    else if devices[0].Handles(address) then Some(0)
    else match FindByte(devices[1..], address)
      case Some(i) => assert forall j :: 0 < j <= i + 1 ==> devices[j] == devices[1..][j - 1]; Some(i + 1)
      case None => assert forall j :: 0 < j < |devices| ==> devices[j] == devices[1..][j - 1]; None
  }

  /** The first virtio device whose window holds an address. */
  function FindBar(bars: seq<u64>, address: u64): (r: Option<nat>)
    ensures r.Some? ==> r.value < |bars| && Range(bars[r.value], VIRTIO_BAR_SIZE).Handles(address)
    ensures r.Some? ==> forall j :: 0 <= j < r.value ==> !Range(bars[j], VIRTIO_BAR_SIZE).Handles(address)
    ensures r.None? ==> forall j :: 0 <= j < |bars| ==> !Range(bars[j], VIRTIO_BAR_SIZE).Handles(address)
  {
    if bars == [] then None
    else if Range(bars[0], VIRTIO_BAR_SIZE).Handles(address) then Some(0)
    else match FindBar(bars[1..], address)
      case Some(i) => assert forall j :: 0 < j <= i + 1 ==> bars[j] == bars[1..][j - 1]; Some(i + 1)
      case None => assert forall j :: 0 < j < |bars| ==> bars[j] == bars[1..][j - 1]; None
  }

  /** A virtio access: the service, and the record a notifying write queues. */
  function DispatchVirtio(bar: u64, exit: MmioExit, reply: VirtioReply)
    : (Option<EventRecord>, Result<Service, MmioError>)
  {
    match reply
    case Rejected => (None, Err(VirtioRejected))
    case Accepted(bytes, notify) =>
      match exit.direction
      case Read => (None, Ok(ReadBack(seq<u8>(exit.length, i requires 0 <= i => bytes(i)))))
      case Write =>
        (match notify case Some(queue) => Some(EventRecord(bar, QueueNotified(queue))) case None => None, Ok(Written))
  }

  function Queue(s: BusState, record: Option<EventRecord>): BusState {
    match record case Some(e) => s.(events := s.events + [e]) case None => s
  }

  function Dispatch(s: BusState, exit: MmioExit, reply: VirtioReply): (BusState, Result<Service, MmioError>) {
    match FindByte(s.byteDevices, exit.address)
    case Some(i) =>
      var (d, r) := s.byteDevices[i].Handle(exit);
      (s.(byteDevices := s.byteDevices[i := d]), r)
    case None =>
      match FindBar(s.rng, exit.address)
      case Some(i) =>
        var (record, r) := DispatchVirtio(s.rng[i], exit, reply);
        (Queue(s, record), r)
      case None =>
        match FindBar(s.blk, exit.address)
        case Some(i) =>
          var (record, r) := DispatchVirtio(s.blk[i], exit, reply);
          (Queue(s, record), r)
        case None => (s, Err(UnhandledAddress(exit)))
  }

  // ---------------------------------------------------------------- taking events

  /** The first unsettled device. */
  function FindUnsettled(devices: seq<ByteDevice>): (r: Option<nat>)
    ensures r.Some? ==> r.value < |devices| && !devices[r.value].Settled()
    ensures r.Some? ==> forall j :: 0 <= j < r.value ==> devices[j].Settled()
    ensures r.None? ==> forall j :: 0 <= j < |devices| ==> devices[j].Settled()
  {
    if devices == [] then None
    else if !devices[0].Settled() then Some(0)
    else match FindUnsettled(devices[1..])
      case Some(i) => assert forall j :: 0 < j <= i + 1 ==> devices[j] == devices[1..][j - 1]; Some(i + 1)
      case None => assert forall j :: 0 < j < |devices| ==> devices[j] == devices[1..][j - 1]; None
  }

  function Take(s: BusState): (BusState, Option<EventRecord>) {
    match FindUnsettled(s.byteDevices)
    case Some(i) =>
      var (d, event) := s.byteDevices[i].TakeEvent();
      TakeSettles(s.byteDevices[i]);
      (s.(byteDevices := s.byteDevices[i := d]), Some(EventRecord(d.address, event.value)))
    case None =>
      if s.events == [] then (s, None) else (s.(events := s.events[1..]), Some(s.events[0]))
  }

  // ---------------------------------------------------------------- runs

  datatype Op =
    | Access(exit: MmioExit, reply: VirtioReply)
    | TakeRecord
    | AddByte(address: u64, readValue: u8)
    | AddLevel(address: u64)
    | AddRng(bar: u64)
    | AddBlk(bar: u64)

  function Step(s: BusState, op: Op): (BusState, Option<EventRecord>) {
    match op
    case Access(exit, reply) => (Dispatch(s, exit, reply).0, None)
    case TakeRecord => Take(s)
    case AddByte(address, readValue) => (RegisterByte(s, NewDevice(address, readValue, Plain)).0, None)
    case AddLevel(address) => (RegisterByte(s, NewDevice(address, 0, LevelInterrupt)).0, None)
    case AddRng(bar) => (RegisterRng(s, bar).0, None)
    case AddBlk(bar) => (RegisterBlk(s, bar).0, None)
  }

  /** The state after a run and the records it handed out, in order. */
  function Run(s: BusState, ops: seq<Op>): (BusState, seq<EventRecord>)
    decreases ops
  {
    if ops == [] then (s, [])
    else
      var (s1, record) := Step(s, ops[0]);
      var (s2, rest) := Run(s1, ops[1..]);
      (s2, (match record case Some(e) => [e] case None => []) + rest)
  }

  // ---------------------------------------------------------------- disjointness is kept

  lemma ConstructorsValid(address: u64, readValue: u8, mode: Mode)
    ensures Valid(EMPTY) && Valid(WithDevice(NewDevice(address, readValue, mode)))
  {
    assert Ranges(WithDevice(NewDevice(address, readValue, mode))) == [NewDevice(address, readValue, mode).Span()];
  }

  /** A range that meets none of the registered ones may be inserted anywhere among them. */
  lemma InsertKeepsDisjoint(before: seq<Range>, after: seq<Range>, r: Range)
    requires RangesDisjoint(before + after) && !r.Overflows()
    requires forall i :: 0 <= i < |before + after| ==>
              !(before + after)[i].Overflows() && (before + after)[i].Disjoint(r)
    ensures RangesDisjoint(before + [r] + after)
    ensures forall i :: 0 <= i < |before + [r] + after| ==> !(before + [r] + after)[i].Overflows()
  {
    var rs, inserted, n := before + after, before + [r] + after, |before|;
    assert forall i :: 0 <= i < n ==> inserted[i] == rs[i];
    assert inserted[n] == r;
    assert forall i :: n < i < |inserted| ==> inserted[i] == rs[i - 1];
    forall i, j | 0 <= i < j < |inserted| ensures inserted[i].Disjoint(inserted[j]) {
      if i == n {
        assert rs[j - 1].Disjoint(r);
      } else if j == n {
        assert rs[i].Disjoint(r);
      } else {
        assert rs[if i < n then i else i - 1].Disjoint(rs[if j < n then j else j - 1]);
      }
    }
  }

  /** Where each device sits in the registry order. */
  lemma RangesLayout(s: BusState)
    ensures var nb, nr := |s.byteDevices|, |s.rng|;
            && |Ranges(s)| == nb + nr + |s.blk|
            && (forall i :: 0 <= i < nb ==> Ranges(s)[i] == s.byteDevices[i].Span())
            && (forall i :: 0 <= i < nr ==> Ranges(s)[nb + i] == Range(s.rng[i], VIRTIO_BAR_SIZE))
            && (forall i :: 0 <= i < |s.blk| ==> Ranges(s)[nb + nr + i] == Range(s.blk[i], VIRTIO_BAR_SIZE))
  {
  }

  lemma RangesPositive(s: BusState)
    ensures forall i :: 0 <= i < |Ranges(s)| ==> Ranges(s)[i].size > 0
  {
  }

  lemma StepKeepsValid(s: BusState, op: Op)
    requires Valid(s)
    ensures Valid(Step(s, op).0)
  {
    hide Valid;
    match op
    case Access(exit, reply) => DispatchKeepsRanges(s, exit, reply);
    case TakeRecord => TakeKeepsRanges(s);
    case AddByte(address, readValue) => RegisterByteValid(s, NewDevice(address, readValue, Plain));
    case AddLevel(address) => RegisterByteValid(s, NewDevice(address, 0, LevelInterrupt));
    case AddRng(bar) => RegisterRngValid(s, bar);
    case AddBlk(bar) => RegisterBlkValid(s, bar);
  }

  lemma RegisterRngValid(s: BusState, bar: u64)
    requires Valid(s)
    ensures Valid(RegisterRng(s, bar).0)
  {
    hide Conflict;
    if RegisterRng(s, bar).1.Ok? {
      RangesPositive(s);
      var r := Range(bar, VIRTIO_BAR_SIZE);
      AvailableExact(Ranges(s), r);
      var before, after := ByteRanges(s.byteDevices) + BarRanges(s.rng), BarRanges(s.blk);
      InsertKeepsDisjoint(before, after, r);
      assert BarRanges(s.rng + [bar]) == BarRanges(s.rng) + [r];
      assert Ranges(RegisterRng(s, bar).0) == before + [r] + after;
    }
  }

  lemma RegisterBlkValid(s: BusState, bar: u64)
    requires Valid(s)
    ensures Valid(RegisterBlk(s, bar).0)
  {
    hide Conflict;
    if RegisterBlk(s, bar).1.Ok? {
      RangesPositive(s);
      var r := Range(bar, VIRTIO_BAR_SIZE);
      AvailableExact(Ranges(s), r);
      assert Ranges(s) + [] == Ranges(s);
      InsertKeepsDisjoint(Ranges(s), [], r);
      assert BarRanges(s.blk + [bar]) == BarRanges(s.blk) + [r];
      assert Ranges(RegisterBlk(s, bar).0) == Ranges(s) + [r] + [];
    }
  }

  lemma RegisterByteValid(s: BusState, d: ByteDevice)
    requires Valid(s)
    ensures Valid(RegisterByte(s, d).0)
  {
    hide Conflict; hide ByteRanges; hide BarRanges; hide RangesDisjoint;
    if RegisterByte(s, d).1.Ok? {
      RangesPositive(s);
      AvailableExact(Ranges(s), d.Span());
      var before, after := ByteRanges(s.byteDevices), BarRanges(s.rng) + BarRanges(s.blk);
      assert Ranges(s) == before + after;
      InsertKeepsDisjoint(before, after, d.Span());
      ByteRangesAppend(s.byteDevices, d);
      assert Ranges(RegisterByte(s, d).0) == before + [d.Span()] + after;
    }
  }

  lemma ByteRangesAppend(devices: seq<ByteDevice>, d: ByteDevice)
    ensures ByteRanges(devices + [d]) == ByteRanges(devices) + [d.Span()]
  {
  }

  lemma DispatchKeepsRanges(s: BusState, exit: MmioExit, reply: VirtioReply)
    ensures Ranges(Dispatch(s, exit, reply).0) == Ranges(s)
    ensures Valid(s) ==> Valid(Dispatch(s, exit, reply).0)
  {
    match FindByte(s.byteDevices, exit.address)
    case Some(i) =>
      HandleEffect(s.byteDevices[i], exit);
      assert ByteRanges(Dispatch(s, exit, reply).0.byteDevices) == ByteRanges(s.byteDevices);
    case None =>
  }

  lemma TakeKeepsRanges(s: BusState)
    ensures Ranges(Take(s).0) == Ranges(s)
    ensures Valid(s) ==> Valid(Take(s).0)
  {
    match FindUnsettled(s.byteDevices)
    case Some(i) =>
      TakeSettles(s.byteDevices[i]);
      assert ByteRanges(Take(s).0.byteDevices) == ByteRanges(s.byteDevices);
    case None =>
  }

  /** Whatever sequence of accesses, takes and registrations, successful or refused. */
  lemma {:induction false} RunKeepsValid(s: BusState, ops: seq<Op>)
    requires Valid(s)
    ensures Valid(Run(s, ops).0)
    decreases ops
  {
    if ops != [] {
      StepKeepsValid(s, ops[0]);
      RunKeepsValid(Step(s, ops[0]).0, ops[1..]);
    }
  }

  /** A registration succeeds exactly when its range is free in a registry without overflowing
      ranges, and a refused one changes nothing. */
  lemma RegistrationExact(s: BusState, d: ByteDevice)
    ensures RegisterByte(s, d).1.Ok? <==>
            !d.Span().Overflows()
            && forall i :: 0 <= i < |Ranges(s)| ==> !Ranges(s)[i].Overflows() && Ranges(s)[i].Disjoint(d.Span())
    ensures RegisterByte(s, d).1.Err? ==> RegisterByte(s, d).0 == s
    ensures RegisterByte(s, d).1.Ok? ==>
              RegisterByte(s, d).0.byteDevices == s.byteDevices + [d]
              && RegisterByte(s, d).0.rng == s.rng && RegisterByte(s, d).0.blk == s.blk
  {
    RangesPositive(s);
    AvailableExact(Ranges(s), d.Span());
  }

  /** The same for the windows of both kinds of virtio device. */
  lemma WindowRegistrationExact(s: BusState, bar: u64)
    ensures var free := !Range(bar, VIRTIO_BAR_SIZE).Overflows() && forall i :: 0 <= i < |Ranges(s)| ==>
                          !Ranges(s)[i].Overflows() && Ranges(s)[i].Disjoint(Range(bar, VIRTIO_BAR_SIZE));
            && (RegisterRng(s, bar).1.Ok? <==> free) && (RegisterBlk(s, bar).1.Ok? <==> free)
            && RegisterRng(s, bar).0 == (if free then s.(rng := s.rng + [bar]) else s)
            && RegisterBlk(s, bar).0 == (if free then s.(blk := s.blk + [bar]) else s)
  {
    RangesPositive(s);
    AvailableExact(Ranges(s), Range(bar, VIRTIO_BAR_SIZE));
    hide EnsureAvailable;
  }

  // ---------------------------------------------------------------- one owner per address

  /** At most one registered range handles an address. */
  lemma UniqueOwner(s: BusState, address: u64, i: nat, j: nat)
    requires Valid(s) && i < |Ranges(s)| && j < |Ranges(s)|
    requires Ranges(s)[i].Handles(address) && Ranges(s)[j].Handles(address)
    ensures i == j
  {
  }

  /** So first-match dispatch reaches the owner whichever list is searched first: the three
      searches succeed for the owner alone. */
  lemma DispatchFindsOwner(s: BusState, address: u64, k: nat)
    requires Valid(s) && k < |Ranges(s)| && Ranges(s)[k].Handles(address)
    ensures var nb, nr := |s.byteDevices|, |s.rng|;
            && FindByte(s.byteDevices, address) == (if k < nb then Some(k) else None)
            && FindBar(s.rng, address) == (if nb <= k < nb + nr then Some(k - nb) else None)
            && FindBar(s.blk, address) == (if nb + nr <= k then Some(k - nb - nr) else None)
  {
    RangesLayout(s);
    hide Ranges; hide Valid; hide FindByte; hide FindBar;
    var nb, nr := |s.byteDevices|, |s.rng|;
    forall i | 0 <= i < |Ranges(s)| && Ranges(s)[i].Handles(address) ensures i == k { UniqueOwner(s, address, i, k); }
    OnlyByteOwner(s, address, k);
    OnlyBarOwner(s.rng, Ranges(s), nb, address, k);
    OnlyBarOwner(s.blk, Ranges(s), nb + nr, address, k);
  }

  lemma OnlyByteOwner(s: BusState, address: u64, k: nat)
    requires |s.byteDevices| <= |Ranges(s)| && k < |Ranges(s)| && Ranges(s)[k].Handles(address)
    requires forall i :: 0 <= i < |Ranges(s)| && Ranges(s)[i].Handles(address) ==> i == k
    requires forall i :: 0 <= i < |s.byteDevices| ==> Ranges(s)[i] == s.byteDevices[i].Span()
    ensures FindByte(s.byteDevices, address) == if k < |s.byteDevices| then Some(k) else None
  {
    hide Ranges; hide FindByte;
  }

  /** The same for a list of windows that starts at position `from` of the registry. */
  lemma OnlyBarOwner(bars: seq<u64>, rs: seq<Range>, from: nat, address: u64, k: nat)
    requires from + |bars| <= |rs| && k < |rs| && rs[k].Handles(address)
    requires forall i :: 0 <= i < |rs| && rs[i].Handles(address) ==> i == k
    requires forall i :: 0 <= i < |bars| ==> rs[from + i] == Range(bars[i], VIRTIO_BAR_SIZE)
    ensures FindBar(bars, address) == if from <= k < from + |bars| then Some(k - from) else None
  {
    hide FindBar;
    if from <= k < from + |bars| { assert rs[from + (k - from)] == Range(bars[k - from], VIRTIO_BAR_SIZE); }
  }

  /** A dispatch touches the owner only; a refused one touches nothing; an unhandled address is
      refused. */
  lemma DispatchFrame(s: BusState, exit: MmioExit, reply: VirtioReply, i: nat)
    requires i < |s.byteDevices|
    ensures var (s', r) := Dispatch(s, exit, reply);
            && |s'.byteDevices| == |s.byteDevices| && s'.rng == s.rng && s'.blk == s.blk
            && (r.Err? ==> s' == s)
            && (!s.byteDevices[i].Handles(exit.address) ==> s'.byteDevices[i] == s.byteDevices[i])
            && s.events <= s'.events && |s'.events| <= |s.events| + 1
            && (s.byteDevices[i].Handles(exit.address) ==> s'.events == s.events)
            && ((forall k :: 0 <= k < |Ranges(s)| ==> !Ranges(s)[k].Handles(exit.address)) ==>
                  r == Err(UnhandledAddress(exit)))
  {
    match FindByte(s.byteDevices, exit.address)
    case Some(k) =>
      HandleEffect(s.byteDevices[k], exit);
      assert Ranges(s)[k] == s.byteDevices[k].Span();
      assert s.byteDevices[k := s.byteDevices[k]] == s.byteDevices;
    case None =>
      match FindBar(s.rng, exit.address)
      case Some(k) => assert Ranges(s)[|s.byteDevices| + k] == Range(s.rng[k], VIRTIO_BAR_SIZE);
      case None =>
        match FindBar(s.blk, exit.address)
        case Some(k) => assert Ranges(s)[|s.byteDevices| + |s.rng| + k] == Range(s.blk[k], VIRTIO_BAR_SIZE);
        case None =>
  }

  /** An access to the virtio window at `base`: an accepted write queues one record for the queue it
      notifies, if any, and does nothing else to the bus; an accepted read returns the device's bytes
      and a rejection nothing, both without a trace. */
  lemma WindowAccess(s: BusState, exit: MmioExit, reply: VirtioReply, base: u64)
    requires Valid(s) && base in s.rng + s.blk && base <= exit.address < base + 0x1000 < U64_LIMIT
    ensures var (s', r) := Dispatch(s, exit, reply);
            match reply
            case Rejected => s' == s && r == Err(VirtioRejected)
            case Accepted(bytes, notify) =>
              if exit.direction.Read? then
                && s' == s && r.Ok? && r.value.ReadBack? && |r.value.bytes| == exit.length
                && forall i :: 0 <= i < exit.length ==> r.value.bytes[i] == bytes(i)
              else
                && r == Ok(Written)
                && s' == s.(events := s.events + match notify
                                                 case Some(queue) => [EventRecord(base, QueueNotified(queue))]
                                                 case None => [])
  {
    hide FindByte; hide FindBar; hide Valid;
    WindowFound(s, base, exit.address);
    assert s.events + [] == s.events;
  }

  /** Dispatch finds the device of a window. */
  lemma WindowFound(s: BusState, base: u64, address: u64)
    requires Valid(s) && base in s.rng + s.blk && base <= address < base + 0x1000 < U64_LIMIT
    ensures FindByte(s.byteDevices, address).None?
    ensures var i, j := FindBar(s.rng, address), FindBar(s.blk, address);
            if i.Some? then s.rng[i.value] == base else j.Some? && s.blk[j.value] == base
  {
    var k := WindowRank(s, base);
    DispatchFindsOwner(s, address, k);
    hide Ranges; hide FindByte; hide FindBar; hide Valid;
  }

  /** Where in the registry a window stands. */
  lemma WindowRank(s: BusState, base: u64) returns (k: nat)
    requires base in s.rng + s.blk
    ensures var nb, nr := |s.byteDevices|, |s.rng|;
            && nb <= k < |Ranges(s)| == nb + nr + |s.blk| && Ranges(s)[k] == Range(base, 0x1000)
            && (if k < nb + nr then s.rng[k - nb] == base else s.blk[k - nb - nr] == base)
  {
    RangesLayout(s);
    hide Ranges;
    if base in s.rng {
      var i :| 0 <= i < |s.rng| && s.rng[i] == base;
      k := |s.byteDevices| + i;
    } else {
      var i :| 0 <= i < |s.blk| && s.blk[i] == base;
      k := |s.byteDevices| + |s.rng| + i;
    }
  }

  /** An access outside every virtio window queues nothing. */
  lemma OutsideWindows(s: BusState, exit: MmioExit, reply: VirtioReply)
    requires forall i :: 0 <= i < |s.rng| ==> !(s.rng[i] <= exit.address < s.rng[i] + 0x1000 < U64_LIMIT)
    requires forall i :: 0 <= i < |s.blk| ==> !(s.blk[i] <= exit.address < s.blk[i] + 0x1000 < U64_LIMIT)
    ensures Dispatch(s, exit, reply).0.events == s.events
  {
  }

  /** A device constructed where its range would pass 2^64 blocks the bus for good: whatever run
      follows, nothing else is ever registered and no address is ever handled. */
  lemma {:induction false} OverflowingDeviceBlocksBus(s: BusState, ops: seq<Op>, address: u64)
    requires |s.byteDevices| == 1 && s.rng == [] && s.blk == [] && s.byteDevices[0].Span().Overflows()
    ensures var t := Run(s, ops).0;
            && Ranges(t) == Ranges(s)
            && FindByte(t.byteDevices, address).None? && FindBar(t.rng, address).None? && FindBar(t.blk, address).None?
    decreases ops
  {
    if ops != [] {
      BlockedStep(s, ops[0]);
      OverflowingDeviceBlocksBus(Step(s, ops[0]).0, ops[1..], address);
    }
  }

  lemma BlockedStep(s: BusState, op: Op)
    requires |s.byteDevices| == 1 && s.rng == [] && s.blk == [] && s.byteDevices[0].Span().Overflows()
    ensures var t := Step(s, op).0;
            && |t.byteDevices| == 1 && t.rng == [] && t.blk == [] && t.byteDevices[0].Span() == s.byteDevices[0].Span()
            && Ranges(t) == Ranges(s)
  {
    assert Ranges(s) == [s.byteDevices[0].Span()];
    match op
    case Access(exit, reply) =>
    case TakeRecord => TakeSettles(s.byteDevices[0]); TakeKeepsRanges(s);
    case AddByte(_, _) =>
    case AddLevel(_) =>
    case AddRng(_) =>
    case AddBlk(_) =>
  }

  // ---------------------------------------------------------------- level lines alternate

  function LineEvents(records: seq<EventRecord>, address: u64): seq<Event> {
    if records == [] then []
    else
      var rest := LineEvents(records[1..], address);
      if records[0].deviceAddress == address && records[0].event.IsLine() then [records[0].event] + rest else rest
  }

  /** Assert and deassert in turn, beginning with whichever toggles `line`. */
  predicate Alternates(line: bool, events: seq<Event>)
    decreases |events|
  {
    || events == []
    || (events[0] == (if line then LineDeassertRequested else LineAssertRequested) && Alternates(!line, events[1..]))
  }

  function Count(events: seq<Event>, e: Event): nat {
    if events == [] then 0 else (if events[0] == e then 1 else 0) + Count(events[1..], e)
  }

  function Level(line: bool): int { if line then 1 else 0 }

  /** One step and one level device: it keeps its place and address, and a line record for it
      toggles its line, while any other step leaves the line alone. */
  lemma StepLine(s: BusState, op: Op, i: nat)
    requires Valid(s) && i < |s.byteDevices| && s.byteDevices[i].mode.LevelInterrupt?
    ensures var (s', record) := Step(s, op);
            var d, d' := s.byteDevices[i], if i < |s'.byteDevices| then s'.byteDevices[i] else s.byteDevices[i];
            && i < |s'.byteDevices| && d'.address == d.address && d'.mode == d.mode
            && (if record.Some? && record.value.deviceAddress == d.address && record.value.event.IsLine()
                then d'.lineAsserted == !d.lineAsserted
                     && record.value.event == (if d.lineAsserted then LineDeassertRequested else LineAssertRequested)
                else d'.lineAsserted == d.lineAsserted)
  {
    match op
    case Access(exit, reply) =>
      match FindByte(s.byteDevices, exit.address) {
        case Some(k) => HandleEffect(s.byteDevices[k], exit);
        case None =>
      }
    case TakeRecord =>
      match FindUnsettled(s.byteDevices) {
        case Some(k) => if k != i { AddressesDiffer(s, i, k); }
        case None =>
      }
    case _ =>
  }

  lemma AddressesDiffer(s: BusState, i: nat, k: nat)
    requires Valid(s) && i < |s.byteDevices| && k < |s.byteDevices| && i != k
    ensures s.byteDevices[i].address != s.byteDevices[k].address
  {
    assert Ranges(s)[i] == s.byteDevices[i].Span() && Ranges(s)[k] == s.byteDevices[k].Span();
    if i < k { assert Ranges(s)[i].Disjoint(Ranges(s)[k]); } else { assert Ranges(s)[k].Disjoint(Ranges(s)[i]); }
  }

  /** Over any run, the line records of a level device strictly alternate, the first toggles the
      line it started with, and asserts minus deasserts is the change of the line. */
  lemma {:induction false} LineAlternates(s: BusState, ops: seq<Op>, i: nat)
    requires Valid(s) && i < |s.byteDevices| && s.byteDevices[i].mode.LevelInterrupt?
    ensures var (s', records) := Run(s, ops);
            var d := s.byteDevices[i];
            var events := LineEvents(records, d.address);
            && i < |s'.byteDevices| && s'.byteDevices[i].address == d.address
            && Alternates(d.lineAsserted, events)
            && Count(events, LineAssertRequested) - Count(events, LineDeassertRequested)
            == Level(s'.byteDevices[i].lineAsserted) - Level(d.lineAsserted)
    decreases ops
  {
    if ops != [] {
      var (s1, record) := Step(s, ops[0]);
      StepKeepsValid(s, ops[0]);
      StepLine(s, ops[0], i);
      LineAlternates(s1, ops[1..], i);
      var (s2, rest) := Run(s1, ops[1..]);
      var d := s.byteDevices[i];
      match record
      case Some(e) =>
        assert ([e] + rest)[1..] == rest;
        var tail := LineEvents(rest, d.address);
        if e.deviceAddress == d.address && e.event.IsLine() {
          assert LineEvents([e] + rest, d.address) == [e.event] + tail;
          assert ([e.event] + tail)[1..] == tail;
        }
      case None => assert [] + rest == rest;
    }
  }

  // ---------------------------------------------------------------- draining

  function Unsettled(devices: seq<ByteDevice>): nat {
    if devices == [] then 0 else (if devices[0].Settled() then 0 else 1) + Unsettled(devices[1..])
  }

  /** Outstanding work of a bus: unsettled devices and queued notifications. */
  function Outstanding(s: BusState): nat { Unsettled(s.byteDevices) + |s.events| }

  lemma {:induction false} SettleOne(devices: seq<ByteDevice>, i: nat, d: ByteDevice)
    requires i < |devices| && !devices[i].Settled() && d.Settled()
    ensures Unsettled(devices[i := d]) == Unsettled(devices) - 1
  {
    if i == 0 {
      assert devices[0 := d][1..] == devices[1..];
    } else {
      SettleOne(devices[1..], i - 1, d);
      assert devices[i := d][1..] == devices[1..][i - 1 := d];
    }
  }

  /** Every record taken is one unit of outstanding work done, and None means there is none. */
  lemma TakeProgress(s: BusState)
    ensures Take(s).1.Some? ==> Outstanding(Take(s).0) == Outstanding(s) - 1
    ensures Take(s).1.None? ==> Take(s).0 == s && s.events == []
                                && forall i :: 0 <= i < |s.byteDevices| ==> s.byteDevices[i].Settled()
  {
    match FindUnsettled(s.byteDevices)
    case Some(i) =>
      TakeSettles(s.byteDevices[i]);
      SettleOne(s.byteDevices, i, s.byteDevices[i].TakeEvent().0);
    case None =>
  }

  /** Taking records until none is left. */
  function Drain(s: BusState): (BusState, seq<EventRecord>)
    decreases Outstanding(s)
  {
    TakeProgress(s);
    var (s1, record) := Take(s);
    if record.None? then (s, [])
    else
      var (s2, rest) := Drain(s1);
      (s2, [record.value] + rest)
  }

  function DeviceEvents(devices: seq<ByteDevice>): seq<EventRecord> {
    if devices == [] then []
    else (match devices[0].TakeEvent().1 case Some(e) => [EventRecord(devices[0].address, e)] case None => [])
         + DeviceEvents(devices[1..])
  }

  function SettleAll(devices: seq<ByteDevice>): (ds: seq<ByteDevice>)
    ensures |ds| == |devices|
  {
    seq(|devices|, i requires 0 <= i < |devices| => devices[i].TakeEvent().0)
  }

  lemma {:induction false} DeviceEventsFirst(devices: seq<ByteDevice>, i: nat)
    requires i < |devices| && !devices[i].Settled()
    requires forall j :: 0 <= j < i ==> devices[j].Settled()
    ensures devices[i].TakeEvent().1.Some?
    ensures DeviceEvents(devices)
         == [EventRecord(devices[i].address, devices[i].TakeEvent().1.value)]
            + DeviceEvents(devices[i := devices[i].TakeEvent().0])
  {
    var d := devices[i].TakeEvent().0;
    TakeSettles(devices[i]);
    TakeSettles(d);
    TakeSettles(devices[0]);
    if i == 0 {
      assert devices[0 := d][1..] == devices[1..];
    } else {
      assert devices[i := d][1..] == devices[1..][i - 1 := d];
      DeviceEventsFirst(devices[1..], i - 1);
    }
  }

  lemma {:induction false} DeviceEventsNone(devices: seq<ByteDevice>)
    requires forall j :: 0 <= j < |devices| ==> devices[j].Settled()
    ensures DeviceEvents(devices) == []
  {
    if devices != [] {
      TakeSettles(devices[0]);
      DeviceEventsNone(devices[1..]);
    }
  }

  /** Draining terminates; it yields at most one record per byte device, in registration order,
      then the virtio queue first-in first-out, and leaves every device settled. */
  lemma {:induction false} DrainExact(s: BusState)
    ensures Drain(s).1 == DeviceEvents(s.byteDevices) + s.events
    ensures Drain(s).0 == s.(byteDevices := SettleAll(s.byteDevices), events := [])
    ensures forall i :: 0 <= i < |s.byteDevices| ==> Drain(s).0.byteDevices[i].Settled()
    decreases Outstanding(s)
  {
    TakeProgress(s);
    var (s1, record) := Take(s);
    match FindUnsettled(s.byteDevices)
    case Some(i) =>
      var d := s.byteDevices[i].TakeEvent().0;
      TakeSettles(s.byteDevices[i]);
      TakeSettles(d);
      DrainExact(s1);
      DeviceEventsFirst(s.byteDevices, i);
      assert SettleAll(s1.byteDevices) == SettleAll(s.byteDevices);
    case None =>
      DeviceEventsNone(s.byteDevices);
      forall j | 0 <= j < |s.byteDevices| ensures s.byteDevices[j].TakeEvent().0 == s.byteDevices[j] {
        TakeSettles(s.byteDevices[j]);
      }
      assert SettleAll(s.byteDevices) == s.byteDevices;
      if s.events != [] {
        DrainExact(s1);
        assert s.events == [s.events[0]] + s.events[1..];
      }
  }

  // ---------------------------------------------------------------- the bus as an object

  /** The bus of the source: the lists it owns, updated in place. */
  class MmioBus {
    var byteDevices: seq<ByteDevice>
    var rng: seq<u64>
    var blk: seq<u64>
    var events: seq<EventRecord>

    ghost function State(): BusState
      reads this
    {
      BusState(byteDevices, rng, blk, events)
    }

    constructor Empty()
      ensures State() == EMPTY
    {
      byteDevices, rng, blk, events := [], [], [], [];
    }

    constructor WithByteDevice(address: u64, readValue: u8, mode: Mode)
      ensures State() == WithDevice(NewDevice(address, readValue, mode))
    {
      byteDevices, rng, blk, events := [NewDevice(address, readValue, mode)], [], [], [];
    }

    /** Scans the registered ranges in order and stops at the first problem. */
    method EnsureRangeAvailable(r: Range) returns (result: Result<(), RegistrationError>)
      ensures result == EnsureAvailable(Ranges(State()), r)
    {
      if r.Overflows() { return Err(AddressRangeOverflow(r.base, r.size)); }
      var rs := ByteRanges(byteDevices) + BarRanges(rng) + BarRanges(blk);
      for i := 0 to |rs|
        invariant Conflict(rs, r) == Conflict(rs[i..], r)
      {
        assert rs[i..][0] == rs[i] && rs[i..][1..] == rs[i + 1..];
        if rs[i].Overflows() { return Err(AddressRangeOverflow(rs[i].base, rs[i].size)); }
        if r.base < rs[i].base + rs[i].size && rs[i].base < r.base + r.size {
          return Err(AddressRangeOverlap(r.base, r.size, rs[i].base, rs[i].size));
        }
      }
      return Ok(());
    }

    method RegisterDevice(d: ByteDevice) returns (r: Result<(), RegistrationError>)
      modifies this
      ensures (State(), r) == RegisterByte(old(State()), d)
    {
      r := EnsureRangeAvailable(d.Span());
      if r.Ok? { byteDevices := byteDevices + [d]; }
    }

    method RegisterByteDeviceAt(address: u64, readValue: u8) returns (r: Result<(), RegistrationError>)
      modifies this
      ensures State() == Step(old(State()), AddByte(address, readValue)).0
      ensures r.Ok? <==> EnsureAvailable(Ranges(old(State())), Range(address, 1)).Ok?
    {
      r := RegisterDevice(NewDevice(address, readValue, Plain));
    }

    method RegisterLevelInterruptByteDeviceAt(address: u64) returns (r: Result<(), RegistrationError>)
      modifies this
      ensures State() == Step(old(State()), AddLevel(address)).0
      ensures r.Ok? <==> EnsureAvailable(Ranges(old(State())), Range(address, 3)).Ok?
    {
      r := RegisterDevice(NewDevice(address, 0, LevelInterrupt));
    }

    method RegisterVirtioRngDeviceAt(bar: u64) returns (r: Result<(), RegistrationError>)
      modifies this
      ensures (State(), r) == RegisterRng(old(State()), bar)
    {
      r := EnsureRangeAvailable(Range(bar, VIRTIO_BAR_SIZE));
      if r.Ok? { rng := rng + [bar]; }
    }

    method RegisterVirtioBlkDeviceAt(bar: u64) returns (r: Result<(), RegistrationError>)
      modifies this
      ensures (State(), r) == RegisterBlk(old(State()), bar)
    {
      r := EnsureRangeAvailable(Range(bar, VIRTIO_BAR_SIZE));
      if r.Ok? { blk := blk + [bar]; }
    }

    method DispatchExit(exit: MmioExit, reply: VirtioReply) returns (r: Result<Service, MmioError>)
      modifies this
      ensures (State(), r) == Dispatch(old(State()), exit, reply)
    {
      var owner := FindByte(byteDevices, exit.address);
      if owner.Some? {
        var (d, result) := byteDevices[owner.value].Handle(exit);
        byteDevices := byteDevices[owner.value := d];
        return result;
      }
      var record: Option<EventRecord>;
      owner := FindBar(rng, exit.address);
      if owner.Some? {
        var (queued, result) := DispatchVirtio(rng[owner.value], exit, reply);
        record, r := queued, result;
      } else {
        owner := FindBar(blk, exit.address);
        if owner.None? { return Err(UnhandledAddress(exit)); }
        var (queued, result) := DispatchVirtio(blk[owner.value], exit, reply);
        record, r := queued, result;
      }
      if record.Some? { events := events + [record.value]; }
    }

    /** Polls the devices in registration order, then the queue. */
    method TakeDeviceEventRecord() returns (record: Option<EventRecord>)
      modifies this
      ensures (State(), record) == Take(old(State()))
    {
      for i := 0 to |byteDevices|
        invariant State() == old(State())
        invariant forall j :: 0 <= j < i ==> byteDevices[j].Settled()
      {
        TakeSettles(byteDevices[i]);
        var (d, event) := byteDevices[i].TakeEvent();
        if event.Some? {
          assert FindUnsettled(byteDevices) == Some(i);
          byteDevices := byteDevices[i := d];
          return Some(EventRecord(d.address, event.value));
        }
      }
      assert FindUnsettled(byteDevices) == None;
      if events == [] { return None; }
      record := Some(events[0]);
      events := events[1..];
    }
  }
}
