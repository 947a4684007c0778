/** Whole runs of the MMIO bus, from its constructors on: every level device's line, and what its
    pending state says. */
module MmioRuns {
  import opened Words
  import opened Mmio

  // ---------------------------------------------------------------- devices stay

  /** What a device is configured with. */
  predicate SameDevice(d: ByteDevice, e: ByteDevice) {
    e.address == d.address && e.mode == d.mode && e.readValue == d.readValue
  }

  /** A step keeps every device in its place, and may add one that has announced nothing; a step
      that adds one hands out no record. */
  lemma StepDevices(s: BusState, op: Op)
    requires Valid(s)
    ensures var (t, record) := Step(s, op);
            && |s.byteDevices| <= |t.byteDevices| <= |s.byteDevices| + 1
            && (forall i :: 0 <= i < |s.byteDevices| ==> SameDevice(s.byteDevices[i], t.byteDevices[i]))
            && (|t.byteDevices| > |s.byteDevices| ==> record.None? && !t.byteDevices[|s.byteDevices|].lineAsserted)
            && (record.Some? && record.value.event.IsLine() ==> FromDevice(s, record.value.deviceAddress))
  {
    hide Valid; hide EnsureAvailable;
    match op
    case Access(exit, reply) =>
      match FindByte(s.byteDevices, exit.address) {
        case Some(k) => HandleEffect(s.byteDevices[k], exit);
        case None =>
      }
    case TakeRecord =>
      match FindUnsettled(s.byteDevices) {
        case Some(k) =>
          TakeSettles(s.byteDevices[k]);
          assert s.byteDevices[k].address == Step(s, op).1.value.deviceAddress;
        case None => QueueHasNoLines(s);
      }
    case _ =>
  }

  ghost predicate FromDevice(s: BusState, address: u64) {
    exists i :: 0 <= i < |s.byteDevices| && s.byteDevices[i].address == address
  }

  lemma QueueHasNoLines(s: BusState)
    requires Valid(s)
    ensures s.events != [] ==> !s.events[0].event.IsLine()
  {
  }

  lemma {:induction false} RunDevices(s: BusState, ops: seq<Op>)
    requires Valid(s)
    ensures var t := Run(s, ops).0;
            && |s.byteDevices| <= |t.byteDevices|
            && (forall i :: 0 <= i < |s.byteDevices| ==> SameDevice(s.byteDevices[i], t.byteDevices[i]))
    decreases ops
  {
    hide Valid; hide Step;
    if ops != [] {
      StepDevices(s, ops[0]);
      StepKeepsValid(s, ops[0]);
      RunDevices(Step(s, ops[0]).0, ops[1..]);
    }
  }

  /** A plain or edge device answers every one-byte read with the byte it was configured with,
      whatever run came before, and the read changes nothing. */
  lemma ConfiguredByteReadsBack(s: BusState, ops: seq<Op>, i: nat, exit: MmioExit, reply: VirtioReply)
    requires Valid(s) && i < |s.byteDevices|
    requires !s.byteDevices[i].mode.LevelInterrupt? && s.byteDevices[i].address + 1 < U64_LIMIT
    requires exit.address == s.byteDevices[i].address && exit.direction.Read? && exit.length == 1
    ensures var t := Run(s, ops).0;
            Dispatch(t, exit, reply) == (t, Ok(ReadBack([s.byteDevices[i].readValue])))
  {
    RunDevices(s, ops);
    RunKeepsValid(s, ops);
    hide Run; hide Valid;
    var t := Run(s, ops).0;
    RangesLayout(t);
    DispatchFindsOwner(t, exit.address, i);
    HandleEffect(t.byteDevices[i], exit);
    assert t.byteDevices[i := t.byteDevices[i]] == t.byteDevices;
  }

  /** So it does from its constructor on, and from its registration on. */
  lemma ConstructedByteReadsBack(address: u64, readValue: u8, mode: Mode, ops: seq<Op>, reply: VirtioReply)
    requires address + 1 < U64_LIMIT && !mode.LevelInterrupt?
    ensures Dispatch(Run(WithDevice(NewDevice(address, readValue, mode)), ops).0, MmioExit(address, Read, 1, []),
              reply).1
         == Ok(ReadBack([readValue]))
  {
    ConstructorsValid(address, readValue, mode);
    hide Run; hide Dispatch;
    ConfiguredByteReadsBack(WithDevice(NewDevice(address, readValue, mode)), ops, 0, MmioExit(address, Read, 1, []),
                            reply);
  }

  lemma RegisteredByteReadsBack(s: BusState, address: u64, readValue: u8, ops: seq<Op>, reply: VirtioReply)
    requires Valid(s) && EnsureAvailable(Ranges(s), Range(address, 1)).Ok?
    ensures Dispatch(Run(s, [AddByte(address, readValue)] + ops).0, MmioExit(address, Read, 1, []), reply).1
         == Ok(ReadBack([readValue]))
  {
    var op := AddByte(address, readValue);
    StepKeepsValid(s, op);
    assert ([op] + ops)[1..] == ops;
    var t := Step(s, op).0;
    assert t.byteDevices[|s.byteDevices|] == NewDevice(address, readValue, Plain);
    hide Valid; hide Dispatch; hide Step; hide EnsureAvailable;
    ConfiguredByteReadsBack(t, ops, |s.byteDevices|, MmioExit(address, Read, 1, []), reply);
  }

  // ---------------------------------------------------------------- selecting records

  /** The records whose event passes a test, in order. */
  function Only(records: seq<EventRecord>, keep: Event -> bool): seq<EventRecord> {
    if records == [] then [] else (if keep(records[0].event) then [records[0]] else []) + Only(records[1..], keep)
  }

  predicate IsNotification(e: Event) { e.QueueNotified? }

  predicate IsRequest(e: Event) { e.InterruptRequested? }

  lemma OnlyNone(keep: Event -> bool)
    ensures Only([], keep) == []
  {
  }

  lemma {:induction false} OnlyAppend(a: seq<EventRecord>, b: seq<EventRecord>, keep: Event -> bool)
    ensures Only(a + b, keep) == Only(a, keep) + Only(b, keep)
  {
    if a == [] {
      assert a + b == b;
    } else {
      var head := if keep(a[0].event) then [a[0]] else [];
      OnlyAppend(a[1..], b, keep);
      assert (a + b)[0] == a[0] && (a + b)[1..] == a[1..] + b;
      Associates(head, Only(a[1..], keep), Only(b, keep));
    }
  }

  lemma Associates<T>(x: seq<T>, y: seq<T>, z: seq<T>)
    ensures x + (y + z) == (x + y) + z
  {
  }

  // ---------------------------------------------------------------- virtio notifications

  /** The window a virtio device of the bus has around an address. */
  ghost predicate WindowHolds(s: BusState, base: u64, address: u64) {
    base in s.rng + s.blk && base <= address < base + 0x1000 < U64_LIMIT
  }

  /** What one operation notifies: an accepted write that names a queue, in some window. */
  ghost function Notified(s: BusState, op: Op): seq<EventRecord> {
    if op.Access? && op.exit.direction.Write? && op.reply.Accepted? && op.reply.notify.Some?
       && exists base: u64 :: WindowHolds(s, base, op.exit.address)
    then
      var base: u64 :| WindowHolds(s, base, op.exit.address);
      [EventRecord(base, QueueNotified(op.reply.notify.value))]
    else []
  }

  /** The notifications of a run's accepted writes, in order. */
  ghost function Notifications(s: BusState, ops: seq<Op>): seq<EventRecord>
    decreases ops
  {
    if ops == [] then [] else Notified(s, ops[0]) + Notifications(Step(s, ops[0]).0, ops[1..])
  }

  /** The queue after one operation, with what the operation handed out in front. */
  lemma StepQueue(s: BusState, op: Op)
    requires Valid(s)
    ensures var (t, record) := Step(s, op);
            Only(match record case Some(e) => [e] case None => [], IsNotification) + t.events ==
                s.events + Notified(s, op)
  {
    match op
    case Access(exit, reply) => AccessQueue(s, exit, reply);
    case TakeRecord => TakeQueue(s);
    case _ => assert s.events + [] == s.events == [] + s.events;
  }

  lemma AccessQueue(s: BusState, exit: MmioExit, reply: VirtioReply)
    requires Valid(s)
    ensures Dispatch(s, exit, reply).0.events == s.events + Notified(s, Access(exit, reply))
  {
    hide Valid; hide Dispatch;
    assert s.events + [] == s.events;
    if exists base: u64 :: WindowHolds(s, base, exit.address) {
      if exit.direction.Write? && reply.Accepted? && reply.notify.Some? {
        var record := Notified(s, Access(exit, reply))[0];
        WindowAccess(s, exit, reply, record.deviceAddress);
      } else {
        var base: u64 :| WindowHolds(s, base, exit.address);
        WindowAccess(s, exit, reply, base);
      }
    } else {
      forall i | 0 <= i < |s.rng| ensures !(s.rng[i] <= exit.address < s.rng[i] + 0x1000 < U64_LIMIT) {
        assert (s.rng + s.blk)[i] == s.rng[i];
        assert !WindowHolds(s, s.rng[i], exit.address);
      }
      forall i | 0 <= i < |s.blk| ensures !(s.blk[i] <= exit.address < s.blk[i] + 0x1000 < U64_LIMIT) {
        assert (s.rng + s.blk)[|s.rng| + i] == s.blk[i];
        assert !WindowHolds(s, s.blk[i], exit.address);
      }
      OutsideWindows(s, exit, reply);
    }
  }

  lemma TakeQueue(s: BusState)
    requires Valid(s)
    ensures var (t, record) := Take(s);
            Only(match record case Some(e) => [e] case None => [], IsNotification) + t.events == s.events
  {
    match FindUnsettled(s.byteDevices)
    case Some(i) => TakeSettles(s.byteDevices[i]);
    case None =>
  }

  /** Over any run no notification is lost, invented or reordered: the queue records handed out,
      followed by those still queued, are the initial queue followed by the notifications of the
      run's accepted writes. */
  lemma {:induction false} NotificationsConserved(s: BusState, ops: seq<Op>)
    requires Valid(s)
    ensures Only(Run(s, ops).1, IsNotification) + Run(s, ops).0.events == s.events + Notifications(s, ops)
    decreases ops
  {
    hide Valid; hide Step; hide Notified; hide Only;
    if ops == [] {
      assert Only([], IsNotification) == [] by { OnlyNone(IsNotification); }
    } else {
      var (s1, record) := Step(s, ops[0]);
      var (t, rest) := Run(s1, ops[1..]);
      var first := match record case Some(e) => [e] case None => [];
      StepKeepsValid(s, ops[0]);
      StepQueue(s, ops[0]);
      NotificationsConserved(s1, ops[1..]);
      OnlyAppend(first, rest, IsNotification);
      Regroup(Only(first, IsNotification), Only(rest, IsNotification), t.events, s1.events, Notifications(s1, ops[1..]),
              s.events, Notified(s, ops[0]));
    }
  }

  lemma Regroup<T>(taken: seq<T>, later: seq<T>, left: seq<T>, queue: seq<T>, rest: seq<T>, initial: seq<T>,
                   added: seq<T>)
    requires taken + queue == initial + added && later + left == queue + rest
    ensures (taken + later) + left == initial + (added + rest)
  {
    assert (taken + later) + left == taken + (queue + rest) == (taken + queue) + rest;
    assert (initial + added) + rest == initial + (added + rest);
  }

  // ---------------------------------------------------------------- every line, from the start

  /** The records of a run tell the story of a device's line: they assert and deassert it in turn,
      beginning with an assert, and leave it where it is. */
  ghost predicate TellsLine(records: seq<EventRecord>, d: ByteDevice) {
    var events := LineEvents(records, d.address);
    && Alternates(false, events)
    && Count(events, LineAssertRequested) - Count(events, LineDeassertRequested) == Level(d.lineAsserted)
  }

  ghost predicate NothingAnnounced(s: BusState) {
    forall i :: 0 <= i < |s.byteDevices| ==> !s.byteDevices[i].lineAsserted
  }

  /** A device that a run adds is told about from the moment it is there, and not before. */
  lemma {:induction false} AddedLineAlternates(s: BusState, ops: seq<Op>, i: nat)
    requires Valid(s) && |s.byteDevices| <= i < |Run(s, ops).0.byteDevices|
    requires Run(s, ops).0.byteDevices[i].mode.LevelInterrupt?
    ensures TellsLine(Run(s, ops).1, Run(s, ops).0.byteDevices[i])
    decreases ops
  {
    hide Valid; hide Step; hide FromDevice; hide Alternates; hide Count;
    if ops != [] {
      var (s1, record) := Step(s, ops[0]);
      StepDevices(s, ops[0]);
      StepKeepsValid(s, ops[0]);
      RunDevices(s1, ops[1..]);
      var (t, rest) := Run(s1, ops[1..]);
      assert record.None? ==> [] + rest == rest;
      if i < |s1.byteDevices| {
        LineAlternates(s1, ops[1..], i);
      } else {
        AddedLineAlternates(s1, ops[1..], i);
        if record.Some? {
          NotAboutLater(s, s1, t, ops[1..], record.value, i);
          assert ([record.value] + rest)[1..] == rest;
        }
      }
    }
  }

  /** A record of a device already there is not about one that comes later. */
  lemma NotAboutLater(s: BusState, s1: BusState, t: BusState, ops: seq<Op>, record: EventRecord, i: nat)
    requires Valid(s1) && t == Run(s1, ops).0 && |s.byteDevices| <= |s1.byteDevices| <= i < |t.byteDevices|
    requires forall j :: 0 <= j < |s.byteDevices| ==> s1.byteDevices[j].address == s.byteDevices[j].address
    requires record.event.IsLine() ==> FromDevice(s, record.deviceAddress)
    ensures !(record.deviceAddress == t.byteDevices[i].address && record.event.IsLine())
  {
    RunDevices(s1, ops);
    RunKeepsValid(s1, ops);
    hide Run; hide Valid;
    if record.event.IsLine() {
      var j :| 0 <= j < |s.byteDevices| && s.byteDevices[j].address == record.deviceAddress;
      AddressesDiffer(t, i, j);
    }
  }

  /** From a bus that has announced nothing, the line records of every level device there is at the
      end, whenever it was registered, alternate from an assert and add up to its line. */
  lemma EveryLineAlternates(s: BusState, ops: seq<Op>, i: nat)
    requires Valid(s) && NothingAnnounced(s) && i < |Run(s, ops).0.byteDevices|
    requires Run(s, ops).0.byteDevices[i].mode.LevelInterrupt?
    ensures TellsLine(Run(s, ops).1, Run(s, ops).0.byteDevices[i])
  {
    hide Valid; hide Run;
    if i < |s.byteDevices| {
      RunDevices(s, ops);
      LineAlternates(s, ops, i);
    } else {
      AddedLineAlternates(s, ops, i);
    }
  }

  /** So from every constructor. */
  lemma ConstructedLinesAlternate(address: u64, readValue: u8, mode: Mode, device: bool, ops: seq<Op>, i: nat)
    requires var (t, records) := Run(if device then WithDevice(NewDevice(address, readValue, mode)) else EMPTY, ops);
             i < |t.byteDevices| && t.byteDevices[i].mode.LevelInterrupt?
    ensures var (t, records) := Run(if device then WithDevice(NewDevice(address, readValue, mode)) else EMPTY, ops);
            TellsLine(records, t.byteDevices[i])
  {
    ConstructorsValid(address, readValue, mode);
    hide Valid; hide Run;
    EveryLineAlternates(if device then WithDevice(NewDevice(address, readValue, mode)) else EMPTY, ops, i);
  }

  // ---------------------------------------------------------------- what pending means

  /** Whether the last command to a level device at `address` came after the last acknowledgement. */
  function PendingAfter(pending: bool, ops: seq<Op>, address: u64): bool
    decreases ops
  {
    if ops == [] then pending else PendingAfter(PendingStep(pending, ops[0], address), ops[1..], address)
  }

  function PendingStep(pending: bool, op: Op, address: u64): bool {
    if op.Access? && op.exit.length == 1 && op.exit.direction.Write? && |op.exit.writeData| == 1 then
      if op.exit.address == address then true
      else if op.exit.address == address + 2 && op.exit.writeData == [1] then false
      else pending
    else pending
  }

  lemma StepPending(s: BusState, op: Op, i: nat)
    requires Valid(s) && i < |s.byteDevices|
    requires s.byteDevices[i].mode.LevelInterrupt? && !s.byteDevices[i].Span().Overflows()
    ensures var t := Step(s, op).0;
            var d := s.byteDevices[i];
            && i < |t.byteDevices| && t.byteDevices[i].mode == d.mode && t.byteDevices[i].address == d.address
            && t.byteDevices[i].levelPending == PendingStep(d.levelPending, op, d.address)
  {
    StepDevices(s, op);
    match op
    case Access(exit, reply) => AccessPending(s, exit, reply, i);
    case TakeRecord =>
      match FindUnsettled(s.byteDevices) {
        case Some(k) => TakeSettles(s.byteDevices[k]);
        case None =>
      }
    case _ =>
  }

  lemma AccessPending(s: BusState, exit: MmioExit, reply: VirtioReply, i: nat)
    requires Valid(s) && i < |s.byteDevices|
    requires s.byteDevices[i].mode.LevelInterrupt? && !s.byteDevices[i].Span().Overflows()
    ensures var t := Dispatch(s, exit, reply).0;
            && i < |t.byteDevices|
            && t.byteDevices[i].levelPending
            == PendingStep(s.byteDevices[i].levelPending, Access(exit, reply), s.byteDevices[i].address)
  {
    var d := s.byteDevices[i];
    DispatchFrame(s, exit, reply, i);
    if d.Handles(exit.address) {
      RangesLayout(s);
      DispatchFindsOwner(s, exit.address, i);
      HandleEffect(d, exit);
      hide Valid; hide Ranges;
      if exit.length == 1 && (exit.direction.Write? ==> |exit.writeData| == 1) { LevelRegisters(d, exit); }
    }
  }

  /** Over any run, a level device is pending exactly when its last command came after its last
      acknowledgement, whatever other traffic there was. */
  lemma {:induction false} RunPending(s: BusState, ops: seq<Op>, i: nat)
    requires Valid(s) && i < |s.byteDevices|
    requires s.byteDevices[i].mode.LevelInterrupt? && !s.byteDevices[i].Span().Overflows()
    ensures var t := Run(s, ops).0;
            && i < |t.byteDevices|
            && t.byteDevices[i].levelPending
            == PendingAfter(s.byteDevices[i].levelPending, ops, s.byteDevices[i].address)
    decreases ops
  {
    hide Valid; hide Step; hide PendingStep;
    if ops != [] {
      StepPending(s, ops[0], i);
      StepKeepsValid(s, ops[0]);
      RunPending(Step(s, ops[0]).0, ops[1..], i);
    }
  }

  /** And once its events are drained, its line is asserted exactly then. */
  lemma DrainedLineFollowsCommands(s: BusState, ops: seq<Op>, i: nat)
    requires Valid(s) && i < |s.byteDevices|
    requires s.byteDevices[i].mode.LevelInterrupt? && !s.byteDevices[i].Span().Overflows()
    ensures var t := Drain(Run(s, ops).0).0;
            && i < |t.byteDevices|
            && t.byteDevices[i].lineAsserted
            == PendingAfter(s.byteDevices[i].levelPending, ops, s.byteDevices[i].address)
  {
    RunPending(s, ops, i);
    RunDevices(s, ops);
    hide Run; hide Valid; hide PendingAfter; hide Drain;
    var before := Run(s, ops).0;
    DrainExact(before);
    TakeSettles(before.byteDevices[i]);
  }

  // ---------------------------------------------------------------- edge requests

  /** A bus whose first device, the constructed one, is its only edge device. */
  predicate EdgeFirst(s: BusState) {
    && |s.byteDevices| > 0 && s.byteDevices[0].mode.EdgeInterrupt? && s.byteDevices[0].address + 1 < U64_LIMIT
    && forall i :: 0 < i < |s.byteDevices| ==> !s.byteDevices[i].mode.EdgeInterrupt?
  }

  /** A write the edge device at `address` accepts. */
  predicate Kicks(op: Op, address: u64) {
    op.Access? && op.exit.direction.Write? && op.exit.address == address && op.exit.length == 1
    && |op.exit.writeData| == 1
  }

  /** The requests of a run: one at each take that is the first since some write. */
  function EdgeRequests(pending: bool, ops: seq<Op>, address: u64): seq<EventRecord>
    decreases ops
  {
    if ops == [] then []
    else if ops[0].TakeRecord? then
      (if pending then [EventRecord(address, InterruptRequested)] else []) + EdgeRequests(false, ops[1..], address)
    else EdgeRequests(pending || Kicks(ops[0], address), ops[1..], address)
  }

  lemma StepEdge(s: BusState, op: Op)
    requires Valid(s) && EdgeFirst(s)
    ensures var ((t, record), d) := (Step(s, op), s.byteDevices[0]);
            && EdgeFirst(t) && t.byteDevices[0].address == d.address
            && t.byteDevices[0].edgePending == (!op.TakeRecord? && (d.edgePending || Kicks(op, d.address)))
            && Only(match record case Some(e) => [e] case None => [], IsRequest)
            == (if op.TakeRecord? && d.edgePending then [EventRecord(d.address, InterruptRequested)] else [])
  {
    StepDevices(s, op);
    match op
    case Access(exit, reply) => AccessEdge(s, exit, reply);
    case TakeRecord => TakeEdge(s);
    case _ => RegisterEdge(s, op);
  }

  lemma RegisterEdge(s: BusState, op: Op)
    requires EdgeFirst(s) && !op.Access? && !op.TakeRecord?
    ensures var t := Step(s, op).0;
            EdgeFirst(t) && t.byteDevices[0] == s.byteDevices[0] && Step(s, op).1.None?
  {
    hide EnsureAvailable;
  }

  lemma AccessEdge(s: BusState, exit: MmioExit, reply: VirtioReply)
    requires Valid(s) && EdgeFirst(s)
    ensures var (t, d) := (Dispatch(s, exit, reply).0, s.byteDevices[0]);
            && EdgeFirst(t) && t.byteDevices[0].address == d.address
            && t.byteDevices[0].edgePending == (d.edgePending || Kicks(Access(exit, reply), d.address))
  {
    StepDevices(s, Access(exit, reply));
    DispatchFrame(s, exit, reply, 0);
    var d := s.byteDevices[0];
    if d.Handles(exit.address) {
      RangesLayout(s);
      DispatchFindsOwner(s, exit.address, 0);
      HandleEffect(d, exit);
    }
  }

  lemma TakeEdge(s: BusState)
    requires Valid(s) && EdgeFirst(s)
    ensures var ((t, record), d) := (Take(s), s.byteDevices[0]);
            && EdgeFirst(t) && t.byteDevices[0].address == d.address && !t.byteDevices[0].edgePending
            && Only(match record case Some(e) => [e] case None => [], IsRequest)
            == (if d.edgePending then [EventRecord(d.address, InterruptRequested)] else [])
  {
    StepDevices(s, TakeRecord);
    match FindUnsettled(s.byteDevices)
    case Some(i) => TakeSettles(s.byteDevices[i]);
    case None =>
  }

  /** Over any run the edge device requests an interrupt at exactly the takes that follow a write
      since the last take, and writes in between coalesce into one request. */
  lemma {:induction false} EdgeRequestsExact(s: BusState, ops: seq<Op>)
    requires Valid(s) && EdgeFirst(s)
    ensures Only(Run(s, ops).1, IsRequest) == EdgeRequests(s.byteDevices[0].edgePending, ops, s.byteDevices[0].address)
    decreases ops
  {
    hide Valid; hide Step; hide EdgeFirst; hide Kicks; hide Only;
    if ops == [] {
      assert Only([], IsRequest) == [] by { OnlyNone(IsRequest); }
    } else {
      var (s1, record) := Step(s, ops[0]);
      assert |s.byteDevices| > 0 by { EdgeThere(s); }
      StepKeepsValid(s, ops[0]);
      StepEdge(s, ops[0]);
      EdgeThere(s1);
      EdgeRequestsExact(s1, ops[1..]);
      OnlyAppend(match record case Some(e) => [e] case None => [], Run(s1, ops[1..]).1, IsRequest);
    }
  }

  lemma EdgeThere(s: BusState)
    requires EdgeFirst(s)
    ensures |s.byteDevices| > 0
  {
  }
}
