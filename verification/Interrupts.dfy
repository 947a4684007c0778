/** The interrupt layout: which gate lists are accepted, the GDT and IDT installed for one,
    and what interrupt delivery then finds (src/interrupt.rs). */
module Interrupts {
  import opened Words
  import opened GuestRam
  import opened Paging
  import opened Descriptors
  import opened LongMode

  const GDT_ADDR: u64 := 0x5000
  const IDT_ADDR: u64 := 0x6000
  const TABLE_END: u64 := 0x7000
  const EXCEPTION_VECTOR_COUNT: u8 := 32
  const CODE_SELECTOR: u16 := 0x8
  const GATE_PRESENT_RING0: u8 := 0x8e
  const MAX_FRAME_BYTES: u64 := 40
  const GDT_LIMIT: u16 := 23
  const GDT_BYTES: seq<u8> := [
    0, 0, 0, 0, 0, 0, 0, 0,
    0xff, 0xff, 0x00, 0x00, 0x00, 0x9b, 0xaf, 0x00,
    0xff, 0xff, 0x00, 0x00, 0x00, 0x93, 0x8f, 0x00]

  datatype GateSpec = GateSpec(vector: u8, handler: u64)

  datatype InterruptLayout = InterruptLayout(boot: BootLayout, gates: seq<GateSpec>, idtLimit: u16)

  datatype InterruptConfigError =
    | Boot(error: ConfigError)
    | NoInterruptGates
    | VectorReservedForExceptions(vector: u8)
    | DuplicateInterruptVector(vector: u8)
    | EntryOverlapsInterruptTables(entry: u64)
    | HandlerOutsideIdentityMap(handler: u64)
    | HandlerOverlapsReservedTables(handler: u64)
    | StackFrameOutsideIdentityMap(stackPointer: u64)
    | StackFrameOverlapsReservedTables(stackPointer: u64, frameStart: u64)

  predicate IsInterruptTableAddress(a: u64) { GDT_ADDR <= a < TABLE_END }
  predicate IsReservedTableAddress(a: u64) { PML4_ADDR <= a < TABLE_END }

  // ---------------------------------------------------------------- accepted layouts

  predicate GateOk(g: GateSpec) {
    g.vector >= EXCEPTION_VECTOR_COUNT && g.handler < IDENTITY_MAP_SIZE && !IsReservedTableAddress(g.handler)
  }

  predicate GatesOk(gates: seq<GateSpec>) {
    && (forall i :: 0 <= i < |gates| ==> GateOk(gates[i]))
    && (forall i, j :: 0 <= i < j < |gates| ==> gates[i].vector != gates[j].vector)
  }

  predicate HasVector(gates: seq<GateSpec>, vector: u8) {
    exists i :: 0 <= i < |gates| && gates[i].vector == vector
  }

  /** The checks on gate `i`, in the order the source makes them. */
  function GateProblem(gates: seq<GateSpec>, i: nat): Option<InterruptConfigError>
    requires i < |gates|
  {
    var g := gates[i];
    if g.vector < EXCEPTION_VECTOR_COUNT then Some(VectorReservedForExceptions(g.vector))
    else if HasVector(gates[..i], g.vector) then Some(DuplicateInterruptVector(g.vector))
    else if g.handler >= IDENTITY_MAP_SIZE then Some(HandlerOutsideIdentityMap(g.handler))
    else if IsReservedTableAddress(g.handler) then Some(HandlerOverlapsReservedTables(g.handler))
    else None
  }

  /** A reported problem is one the gate has, and a gate without one is admissible and new. */
  lemma GateProblemTells(gates: seq<GateSpec>, i: nat)
    requires i < |gates|
    ensures var g := gates[i];
            match GateProblem(gates, i)
            case None => GateOk(g) && !HasVector(gates[..i], g.vector)
            case Some(VectorReservedForExceptions(vector)) => vector == g.vector < 32
            case Some(DuplicateInterruptVector(vector)) => vector == g.vector && HasVector(gates[..i], vector)
            case Some(HandlerOutsideIdentityMap(handler)) => handler == g.handler >= 0x20_0000
            case Some(HandlerOverlapsReservedTables(handler)) => handler == g.handler && 0x1000 <= handler < 0x7000
            case Some(_) => false
  {
  }

  /** The stack has room for a whole interrupt frame that touches no table. */
  predicate FrameOk(stackPointer: u64) {
    stackPointer >= MAX_FRAME_BYTES
    && !RangesOverlap(stackPointer - MAX_FRAME_BYTES, stackPointer, PML4_ADDR, TABLE_END)
  }

  predicate Accepted(boot: BootLayout, gates: seq<GateSpec>) {
    LongMode.Accepted(boot) && boot.mappings == [] && gates != [] && !IsInterruptTableAddress(boot.entry)
    && FrameOk(boot.stackPointer) && GatesOk(gates)
  }

  /** The limit covers every gate slot, and one of them exactly. */
  predicate LimitOk(gates: seq<GateSpec>, limit: int) {
    && (forall i :: 0 <= i < |gates| ==> 16 * gates[i].vector as int + 15 <= limit)
    && (exists i :: 0 <= i < |gates| && 16 * gates[i].vector as int + 15 == limit)
  }

  predicate LayoutOk(l: InterruptLayout) {
    Accepted(l.boot, l.gates) && LimitOk(l.gates, l.idtLimit)
  }

  /** The problem of the first offending gate. */
  ghost predicate FirstGateProblem(gates: seq<GateSpec>, error: InterruptConfigError) {
    exists i :: 0 <= i < |gates| && GateProblem(gates, i) == Some(error)
                && forall j :: 0 <= j < i ==> GateProblem(gates, j).None?
  }

  /** Accepts exactly the valid configurations and computes the tight table limit; otherwise says
      what is wrong first, in the order of the checks. */
  method WithGates(memory: Region, entry: u64, stackPointer: u64, gates: seq<GateSpec>)
    returns (r: Result<InterruptLayout, InterruptConfigError>)
    ensures r.Ok? <==> Accepted(BootLayout(memory, entry, stackPointer, []), gates)
    ensures r.Ok? ==> r.value.boot == BootLayout(memory, entry, stackPointer, [])
                      && r.value.gates == gates && LayoutOk(r.value)
    ensures r.Err? ==>
              var boot := NewBoot(memory, entry, stackPointer);
              if boot.Err? then r.error == Boot(boot.error)
              else if gates == [] then r.error == NoInterruptGates
              else if IsInterruptTableAddress(entry) then r.error == EntryOverlapsInterruptTables(entry)
              else if stackPointer < MAX_FRAME_BYTES then r.error == StackFrameOutsideIdentityMap(stackPointer)
              else if !FrameOk(stackPointer) then
                r.error == StackFrameOverlapsReservedTables(stackPointer, stackPointer - MAX_FRAME_BYTES)
              else FirstGateProblem(gates, r.error)
  {
    var boot := NewBoot(memory, entry, stackPointer);
    if boot.Err? { return Err(Boot(boot.error)); }
    if gates == [] { return Err(NoInterruptGates); }
    if IsInterruptTableAddress(entry) { return Err(EntryOverlapsInterruptTables(entry)); }
    if stackPointer < MAX_FRAME_BYTES { return Err(StackFrameOutsideIdentityMap(stackPointer)); }
    var frameStart := stackPointer - MAX_FRAME_BYTES;
    if RangesOverlap(frameStart, stackPointer, PML4_ADDR, TABLE_END) {
      return Err(StackFrameOverlapsReservedTables(stackPointer, frameStart));
    }
    var maxVector := ScanGates(gates);
    if maxVector.Err? { return Err(maxVector.error); }
    var limit: int := (maxVector.value as int + 1) * 16 - 1;
    return Ok(InterruptLayout(boot.value, gates, limit));
  }

  /** The scan over the gates, which also finds the largest vector. */
  method ScanGates(gates: seq<GateSpec>) returns (r: Result<u8, InterruptConfigError>)
    ensures r.Ok? <==> GatesOk(gates)
    ensures r.Err? ==> FirstGateProblem(gates, r.error)
    ensures r.Ok? ==> forall j :: 0 <= j < |gates| ==> gates[j].vector <= r.value
    ensures r.Ok? && gates != [] ==> HasVector(gates, r.value)
  {
    var maxVector: u8 := 0;
    for index := 0 to |gates|
      invariant GatesOk(gates[..index])
      invariant forall j :: 0 <= j < index ==> GateProblem(gates, j).None?
      invariant forall j :: 0 <= j < index ==> gates[j].vector <= maxVector
      invariant if index == 0 then maxVector == 0 else HasVector(gates, maxVector)
    {
      var problem := GateProblem(gates, index);
      assert gates[..index + 1] == gates[..index] + [gates[index]];
      if problem.Some? {
        if problem.value.DuplicateInterruptVector? {
          var i :| 0 <= i < |gates[..index]| && gates[..index][i].vector == gates[index].vector;
          assert gates[i].vector == gates[index].vector;
        }
        return Err(problem.value);
      }
      assert forall i :: 0 <= i < index ==> gates[..index][i].vector != gates[index].vector;
      if gates[index].vector > maxVector { maxVector := gates[index].vector; }
    }
    assert gates[..|gates|] == gates;
    return Ok(maxVector);
  }

  // ---------------------------------------------------------------- the abstract table

  function GateOfSpec(g: GateSpec): Gate { Gate(g.handler, CODE_SELECTOR, 0, INTERRUPT_GATE, 0) }

  /** The table the list installs. */
  function GateTable(gates: seq<GateSpec>): (table: seq<Option<Gate>>)
    ensures |table| == VECTORS
  {
    if gates == [] then NoGates()
    else
      var g := gates[|gates| - 1];
      GateTable(gates[..|gates| - 1])[g.vector := Some(GateOfSpec(g))]
  }

  /** Each listed gate is at its own vector; every other vector has none. */
  lemma {:induction false} GateTableExact(gates: seq<GateSpec>, vector: u8)
    requires GatesOk(gates)
    ensures GateTable(gates)[vector].Some? <==> HasVector(gates, vector)
    ensures forall i :: 0 <= i < |gates| && gates[i].vector == vector ==>
                          GateTable(gates)[vector] == Some(Gate(gates[i].handler, 0x08, 0, 0xe, 0))
  {
    if gates != [] {
      var n := |gates| - 1;
      GateTableExact(gates[..n], vector);
      if gates[n].vector == vector {
        assert HasVector(gates, vector);
      } else if HasVector(gates, vector) {
        var i :| 0 <= i < |gates| && gates[i].vector == vector;
        assert gates[..n][i].vector == vector;
      }
    }
  }

  ghost predicate GdtHolds(ram: seq<u8>) {
    GDT_ADDR + |GDT_BYTES| <= |ram| && ram[GDT_ADDR..GDT_ADDR + |GDT_BYTES|] == GDT_BYTES
  }

  /** The bytes an installed layout leaves in RAM. */
  ghost predicate Installed(ram: seq<u8>, l: InterruptLayout) {
    BootTables(ram, l.boot.mappings) && GdtHolds(ram) && IdtHolds(ram, IDT_ADDR, GateTable(l.gates))
  }

  // ---------------------------------------------------------------- delivery

  /** Delivering vector `v` finds exactly the gate the layout lists for it, if any: the limit
      hides no listed gate and exposes no unlisted one. */
  lemma DeliveryFindsGate(ram: seq<u8>, l: InterruptLayout, v: u8)
    requires LayoutOk(l) && Installed(ram, l)
    ensures DecodeGate(ram, IDT_ADDR, l.idtLimit, v) == GateTable(l.gates)[v]
  {
    GateTableExact(l.gates, v);
    assert GateOf(Slot(ram, IDT_ADDR, v)) == GateTable(l.gates)[v];
    if HasVector(l.gates, v) {
      var i :| 0 <= i < |l.gates| && l.gates[i].vector == v;
      assert 16 * l.gates[i].vector as int + 15 <= l.idtLimit;
    }
  }

  /** A delivered interrupt can run: for every listed gate the selector names a present ring-0
      64-bit code segment and the handler is mapped memory off the tables. */
  lemma DeliveryRuns(ram: seq<u8>, l: InterruptLayout, i: nat)
    requires LayoutOk(l) && Installed(ram, l) && i < |l.gates|
    ensures DecodeGate(ram, IDT_ADDR, l.idtLimit, l.gates[i].vector)
         == Some(Gate(l.gates[i].handler, 0x08, 0, 0xe, 0))
    ensures DecodeSegment(ram, GDT_ADDR, GDT_LIMIT, 0x08) == Some(Segment(true, true, true, 0))
    ensures Walk(ram, PML4_ADDR, l.gates[i].handler) == Some(Translation(l.gates[i].handler, true, false))
    ensures !IsReservedTableAddress(l.gates[i].handler)
  {
    assert GateOk(l.gates[i]);
    DeliveryFindsGate(ram, l, l.gates[i].vector);
    GateTableExact(l.gates, l.gates[i].vector);
    KernelCodeSegment(ram);
    IdentityWalk(ram, l, l.gates[i].handler);
  }

  /** Each of the 40 bytes the processor may push below the stack pointer is writable
      supervisor memory outside the tables. */
  lemma FrameIsWritable(ram: seq<u8>, l: InterruptLayout, k: nat)
    requires LayoutOk(l) && Installed(ram, l) && 1 <= k <= MAX_FRAME_BYTES
    ensures Walk(ram, PML4_ADDR, l.boot.stackPointer - k) == Some(Translation(l.boot.stackPointer - k, true, false))
    ensures !IsReservedTableAddress(l.boot.stackPointer - k)
  {
    hide Walk;
    IdentityWalk(ram, l, l.boot.stackPointer - k);
  }

  lemma IdentityWalk(ram: seq<u8>, l: InterruptLayout, va: u64)
    requires Installed(ram, l) && va < IDENTITY_MAP_SIZE
    ensures Walk(ram, PML4_ADDR, va) == Some(Translation(va, true, false))
  {
    BootWalk(ram, l.boot.mappings, va);
  }

  lemma KernelCodeSegment(ram: seq<u8>)
    requires GdtHolds(ram)
    ensures DecodeSegment(ram, GDT_ADDR, GDT_LIMIT, CODE_SELECTOR) == Some(Segment(true, true, true, 0))
  {
    var gdt := ram[GDT_ADDR..GDT_ADDR + |GDT_BYTES|];
    assert gdt[13] == 0x9b && gdt[14] == 0xaf;
    assert ram[GDT_ADDR + 13] == gdt[13] && ram[GDT_ADDR + 14] == gdt[14];
  }

  lemma KernelDataSegment(ram: seq<u8>)
    requires GdtHolds(ram)
    ensures DecodeSegment(ram, GDT_ADDR, GDT_LIMIT, 0x10) == Some(Segment(false, false, true, 0))
  {
    var gdt := ram[GDT_ADDR..GDT_ADDR + |GDT_BYTES|];
    assert gdt[21] == 0x93 && gdt[22] == 0x8f;
    assert ram[GDT_ADDR + 21] == gdt[21] && ram[GDT_ADDR + 22] == gdt[22];
  }

  /** RAM that still agrees on the reserved pages still holds the layout, with the same
      translations. */
  lemma InstalledFrame(s: seq<u8>, t: seq<u8>, l: InterruptLayout)
    requires Installed(s, l) && SameOn(s, t, PML4_ADDR, TABLE_END)
    ensures Installed(t, l)
    ensures forall va: u64 :: Walk(t, PML4_ADDR, va) == Walk(s, PML4_ADDR, va)
  {
    BootTranslationsFrame(s, t, l.boot.mappings);
    assert t[GDT_ADDR..GDT_ADDR + |GDT_BYTES|] == s[GDT_ADDR..GDT_ADDR + |GDT_BYTES|];
    IdtFrame(s, t, IDT_ADDR, GateTable(l.gates));
  }

  /** Whatever the processor pushes into the reserved 40 bytes below the stack pointer, every
      gate and every translation stays as it was. */
  lemma FramePushHarmless(ram: seq<u8>, l: InterruptLayout, frame: seq<u8>)
    requires LayoutOk(l) && Installed(ram, l) && |frame| == MAX_FRAME_BYTES
    requires l.boot.stackPointer <= |ram|
    ensures var ram' := Patch(ram, l.boot.stackPointer - MAX_FRAME_BYTES, frame);
            && Installed(ram', l)
            && (forall va: u64 :: Walk(ram', PML4_ADDR, va) == Walk(ram, PML4_ADDR, va))
            && (forall v: u8 :: DecodeGate(ram', IDT_ADDR, l.idtLimit, v) == DecodeGate(ram, IDT_ADDR, l.idtLimit, v))
  {
    var ram' := Patch(ram, l.boot.stackPointer - MAX_FRAME_BYTES, frame);
    InstalledFrame(ram, ram', l);
    forall v: u8 ensures DecodeGate(ram', IDT_ADDR, l.idtLimit, v) == DecodeGate(ram, IDT_ADDR, l.idtLimit, v) {
      DeliveryFindsGate(ram, l, v);
      DeliveryFindsGate(ram', l, v);
    }
  }

  // ---------------------------------------------------------------- installing

  /** An accepted layout is fully installed whatever RAM held before, and nothing outside the
      six reserved pages is touched. */
  method InstallTables(layout: InterruptLayout, memory: GuestMemory) returns (r: Result<(), MemoryError>)
    requires memory.Valid() && LayoutOk(layout) && memory.region == layout.boot.memory
    modifies memory.ram
    ensures r.Ok?
    ensures Installed(memory.Bytes(), layout)
    ensures forall va: u64 :: Walk(memory.Bytes(), PML4_ADDR, va) == BootMap([], va)
    ensures forall v: u8 :: DecodeGate(memory.Bytes(), IDT_ADDR, layout.idtLimit, v) == GateTable(layout.gates)[v]
    ensures SameOutside(old(memory.Bytes()), memory.Bytes(), PML4_ADDR, TABLE_END)
  {
    r := InstallPageTables(layout.boot, memory);
    ghost var booted := memory.Bytes();
    r := ZeroPages(memory, GDT_ADDR, 2);
    r := memory.Write(GDT_ADDR, GDT_BYTES);
    EmptyIdt(memory.Bytes(), IDT_ADDR);
    r := InstallGates(layout.gates, memory);
    BootTranslationsFrame(booted, memory.Bytes(), []);
    assert memory.Bytes()[GDT_ADDR..GDT_ADDR + |GDT_BYTES|] == GDT_BYTES;
    InstalledBehaviour(memory.Bytes(), layout);
  }

  lemma InstalledBehaviour(ram: seq<u8>, l: InterruptLayout)
    requires LayoutOk(l) && Installed(ram, l)
    ensures forall va: u64 :: Walk(ram, PML4_ADDR, va) == BootMap([], va)
    ensures forall v: u8 :: DecodeGate(ram, IDT_ADDR, l.idtLimit, v) == GateTable(l.gates)[v]
  {
    BootWalkAll(ram, []);
    forall v: u8 ensures DecodeGate(ram, IDT_ADDR, l.idtLimit, v) == GateTable(l.gates)[v] {
      DeliveryFindsGate(ram, l, v);
    }
  }

  method InstallGates(gates: seq<GateSpec>, memory: GuestMemory) returns (r: Result<(), MemoryError>)
    requires memory.Valid() && memory.region.base == 0
    requires IdtHolds(memory.Bytes(), IDT_ADDR, NoGates())
    modifies memory.ram
    ensures r.Ok?
    ensures IdtHolds(memory.Bytes(), IDT_ADDR, GateTable(gates))
    ensures SameOutside(old(memory.Bytes()), memory.Bytes(), IDT_ADDR, TABLE_END)
  {
    r := Ok(());
    for k := 0 to |gates|
      invariant r.Ok?
      invariant IdtHolds(memory.Bytes(), IDT_ADDR, GateTable(gates[..k]))
      invariant SameOutside(old(memory.Bytes()), memory.Bytes(), IDT_ADDR, TABLE_END)
    {
      var g := gates[k];
      r := WriteGate(memory, IDT_ADDR, g.vector, g.handler, CODE_SELECTOR, GATE_PRESENT_RING0, GateTable(gates[..k]));
      assert gates[..k + 1][..k] == gates[..k] && gates[..k + 1][k] == g;
    }
    assert gates[..|gates|] == gates;
  }
}
