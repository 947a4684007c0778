/** What the processor reads in descriptor tables: 64-bit IDT gates (section 6.14.1 of the
    Intel SDM, volume 3A) and GDT segment and TSS descriptors (sections 3.4.5 and 7.2.3). */
module Descriptors {
  import opened Words
  import opened GuestRam

  datatype Gate = Gate(handler: nat, selector: nat, ist: nat, kind: nat, dpl: nat)

  const INTERRUPT_GATE: nat := 0xe
  const VECTORS: nat := 256

  /** The gate in a 16-byte slot, if it is marked present. */
  function GateOf(slot: seq<u8>): Option<Gate>
    requires |slot| == 16
  {
    if slot[5] / 128 == 0 then None
    else Some(Gate(LeValue(slot[0..2]) + 0x1_0000 * LeValue(slot[6..8]) + 0x1_0000_0000 * LeValue(slot[8..12]),
                   LeValue(slot[2..4]), slot[4] % 8, slot[5] % 16, slot[5] / 32 % 4))
  }

  function Slot(ram: seq<u8>, idt: nat, vector: nat): (slot: seq<u8>)
    requires idt + 16 * vector + 16 <= |ram|
    ensures |slot| == 16
  {
    ram[idt + 16 * vector..idt + 16 * vector + 16]
  }

  /** The gate an interrupt with this vector is delivered through. A slot that does not lie
      wholly within the table limit raises a general-protection fault instead. */
  function DecodeGate(ram: seq<u8>, idt: nat, limit: nat, vector: nat): Option<Gate>
    requires idt + 16 * vector + 16 <= |ram|
  {
    if 16 * vector + 15 > limit then None else GateOf(Slot(ram, idt, vector))
  }

  datatype Segment = Segment(code: bool, long: bool, writableOrReadable: bool, dpl: nat)

  /** The code or data segment a selector names, if it is marked present. */
  function DecodeSegment(ram: seq<u8>, gdt: nat, limit: nat, selector: nat): Option<Segment>
    requires gdt + limit + 1 <= |ram|
  {
    var p := gdt + selector / 8 * 8;
    if selector / 8 * 8 + 7 > limit || ram[p + 5] / 128 == 0 || ram[p + 5] / 16 % 2 == 0 then None
    else Some(Segment(ram[p + 5] / 8 % 2 == 1, ram[p + 6] / 32 % 2 == 1, ram[p + 5] / 2 % 2 == 1, ram[p + 5] / 32 % 4))
  }

  datatype TaskState = TaskState(base: nat, limit: nat, dpl: nat)

  /** The available 64-bit task-state segment a selector names. */
  function DecodeTaskState(ram: seq<u8>, gdt: nat, limit: nat, selector: nat): Option<TaskState>
    requires gdt + limit + 1 <= |ram|
  {
    var p := gdt + selector / 8 * 8;
    if selector / 8 * 8 + 15 > limit || ram[p + 5] / 128 == 0 || ram[p + 5] % 32 != 9 then None
    else Some(TaskState(
                LeValue(ram[p + 2..p + 4]) + 0x1_0000 * (ram[p + 4] as int) + 0x100_0000 * (ram[p + 7] as int)
                + 0x1_0000_0000 * LeValue(ram[p + 8..p + 12]),
                LeValue(ram[p..p + 2]) + 0x1_0000 * (ram[p + 6] as int % 16),
                ram[p + 5] / 32 % 4))
  }

  /** The 16 bytes of a 64-bit interrupt gate, field after field. */
  function GateBytes(handler: u64, selector: u16, attributes: u8): (gate: seq<u8>)
    ensures |gate| == 16
  {
    LeBytes(handler % 0x1_0000, 2) + LeBytes(selector, 2) + [0, attributes]
    + LeBytes(handler / 0x1_0000 % 0x1_0000, 2) + LeBytes(handler / 0x1_0000 / 0x1_0000, 4) + [0, 0, 0, 0]
  }

  /** Decoding an encoded gate recovers handler, selector, type and privilege level. */
  lemma GateRoundTrip(handler: u64, selector: u16, attributes: u8)
    requires attributes / 128 == 1
    ensures GateOf(GateBytes(handler, selector, attributes))
         == Some(Gate(handler, selector, 0, attributes % 16, attributes / 32 % 4))
  {
    var low, mid, high := handler % 0x1_0000, handler / 0x1_0000 % 0x1_0000, handler / 0x1_0000 / 0x1_0000;
    SplitHandler(handler);
    GateFields(LeBytes(low, 2), LeBytes(selector, 2), attributes, LeBytes(mid, 2), LeBytes(high, 4));
    LeWord(low, 2); LeWord(selector, 2); LeWord(mid, 2); LeWord(high, 4);
  }

  lemma SplitHandler(handler: u64)
    ensures handler == handler % 0x1_0000 + 0x1_0000 * (handler / 0x1_0000 % 0x1_0000)
                       + 0x1_0000_0000 * (handler / 0x1_0000 / 0x1_0000)
    ensures handler / 0x1_0000 / 0x1_0000 < 0x1_0000_0000
  {
    var upper := handler / 0x1_0000;
    assert handler == 0x1_0000 * upper + handler % 0x1_0000;
    assert upper == 0x1_0000 * (upper / 0x1_0000) + upper % 0x1_0000;
  }

  lemma GateFields(low: seq<u8>, selector: seq<u8>, attributes: u8, mid: seq<u8>, high: seq<u8>)
    requires |low| == |selector| == |mid| == 2 && |high| == 4
    ensures var gate := low + selector + [0, attributes] + mid + high + [0, 0, 0, 0];
            && gate[0..2] == low && gate[2..4] == selector && gate[4] == 0 && gate[5] == attributes
            && gate[6..8] == mid && gate[8..12] == high
  {
  }

  /** Fills a zeroed 16-byte buffer field by field. */
  method EncodeGate(handler: u64, selector: u16, attributes: u8) returns (gate: seq<u8>)
    ensures gate == GateBytes(handler, selector, attributes)
  {
    gate := seq(16, _ => 0);
    gate := Patch(gate, 0, LeBytes(handler % 0x1_0000, 2));
    gate := Patch(gate, 2, LeBytes(selector, 2));
    gate := Patch(gate, 4, [0]);
    gate := Patch(gate, 5, [attributes]);
    gate := Patch(gate, 6, LeBytes(handler / 0x1_0000 % 0x1_0000, 2));
    gate := Patch(gate, 8, LeBytes(handler / 0x1_0000 / 0x1_0000, 4));
  }

  // ---------------------------------------------------------------- gate tables

  /** The 256 slots from `idt` on decode to `table`. */
  ghost predicate IdtHolds(ram: seq<u8>, idt: nat, table: seq<Option<Gate>>) {
    |table| == VECTORS && idt + 16 * VECTORS <= |ram|
    && forall v :: 0 <= v < VECTORS ==> GateOf(Slot(ram, idt, v)) == table[v]
  }

  function NoGates(): (table: seq<Option<Gate>>)
    ensures |table| == VECTORS
  {
    seq(VECTORS, _ => None)
  }

  lemma EmptyIdt(ram: seq<u8>, idt: nat)
    requires idt + 16 * VECTORS <= |ram|
    requires forall j :: idt <= j < idt + 16 * VECTORS ==> ram[j] == 0
    ensures IdtHolds(ram, idt, NoGates())
  {
    forall v | 0 <= v < VECTORS ensures GateOf(Slot(ram, idt, v)).None? {
      assert Slot(ram, idt, v)[5] == ram[idt + 16 * v + 5];
    }
  }

  /** Writing an encoded gate changes the entry of its own vector and no other. */
  lemma GateInstalled(ram: seq<u8>, idt: nat, table: seq<Option<Gate>>, vector: u8, handler: u64, selector: u16,
                      attributes: u8)
    requires IdtHolds(ram, idt, table) && attributes / 128 == 1
    ensures IdtHolds(Patch(ram, idt + 16 * (vector as int), GateBytes(handler, selector, attributes)), idt,
                     table[vector := Some(Gate(handler, selector, 0, attributes % 16, attributes / 32 % 4))])
  {
    var gate := GateBytes(handler, selector, attributes);
    var at := idt + 16 * (vector as int);
    var ram' := Patch(ram, at, gate);
    GateRoundTrip(handler, selector, attributes);
    assert Slot(ram', idt, vector) == gate;
    forall v | 0 <= v < VECTORS && v != vector ensures GateOf(Slot(ram', idt, v)) == table[v] {
      assert GateOf(Slot(ram, idt, v)) == table[v];
      assert Slot(ram', idt, v) == Slot(ram, idt, v);
    }
  }

  /** Writes the gate of one vector. */
  method WriteGate(memory: GuestMemory, idt: nat, vector: u8, handler: u64, selector: u16, attributes: u8,
                   ghost table: seq<Option<Gate>>)
    returns (r: Result<(), MemoryError>)
    requires memory.Valid() && memory.region.base == 0 && attributes / 128 == 1
    requires IdtHolds(memory.Bytes(), idt, table)
    modifies memory.ram
    ensures r.Ok?
    ensures IdtHolds(memory.Bytes(), idt,
                     table[vector := Some(Gate(handler, selector, 0, attributes % 16, attributes / 32 % 4))])
    ensures SameOutside(old(memory.Bytes()), memory.Bytes(), idt, idt + 16 * VECTORS)
  {
    var gate := EncodeGate(handler, selector, attributes);
    GateInstalled(memory.Bytes(), idt, table, vector, handler, selector, attributes);
    r := memory.Write(idt + 16 * (vector as int), gate);
  }

  /** A table no byte of which changed keeps its gates. */
  lemma IdtFrame(s: seq<u8>, t: seq<u8>, idt: nat, table: seq<Option<Gate>>)
    requires IdtHolds(s, idt, table) && SameOn(s, t, idt, idt + 16 * VECTORS)
    ensures IdtHolds(t, idt, table)
  {
    forall v | 0 <= v < VECTORS ensures GateOf(Slot(t, idt, v)) == table[v] {
      assert GateOf(Slot(s, idt, v)) == table[v];
      assert Slot(t, idt, v) == Slot(s, idt, v);
    }
  }

  // ---------------------------------------------------------------- task state segments

  /** The 16 bytes of an available 64-bit TSS descriptor with DPL 0, field after field. */
  function TaskStateBytes(base: u64, limit: nat): (descriptor: seq<u8>)
    requires limit < 0x10_0000
    ensures |descriptor| == 16
  {
    LeBytes(limit % 0x1_0000, 2) + LeBytes(base % 0x1_0000, 2) + [base / 0x1_0000 % 0x100, 0x89]
    + [limit / 0x1_0000, base / 0x1_0000 / 0x100 % 0x100] + LeBytes(base / 0x1_0000 / 0x100 / 0x100, 4) + [0, 0, 0, 0]
  }

  /** A TSS descriptor placed anywhere within the GDT limit decodes to its base and limit. */
  lemma TaskStateRoundTrip(ram: seq<u8>, gdt: nat, gdtLimit: nat, selector: nat, base: u64, limit: nat)
    requires gdt + gdtLimit + 1 <= |ram| && selector % 8 == 0 && selector + 15 <= gdtLimit && limit < 0x10_0000
    requires ram[gdt + selector..gdt + selector + 16] == TaskStateBytes(base, limit)
    ensures DecodeTaskState(ram, gdt, gdtLimit, selector) == Some(TaskState(base, limit, 0))
  {
    var p := gdt + selector;
    SplitBase(base);
    var low, high := LeBytes(base % 0x1_0000, 2), LeBytes(base / 0x1_0000 / 0x100 / 0x100, 4);
    TaskStateFields(LeBytes(limit % 0x1_0000, 2), low, base / 0x1_0000 % 0x100, limit / 0x1_0000,
                    base / 0x1_0000 / 0x100 % 0x100, high);
    var d := ram[p..p + 16];
    SubSlice(ram, p, p + 16, 0, 2); SubSlice(ram, p, p + 16, 2, 4); SubSlice(ram, p, p + 16, 8, 12);
    assert ram[p + 4] == d[4] && ram[p + 5] == d[5] && ram[p + 6] == d[6] && ram[p + 7] == d[7];
    LeWord(limit % 0x1_0000, 2); LeWord(base % 0x1_0000, 2); LeWord(base / 0x1_0000 / 0x100 / 0x100, 4);
  }

  lemma SplitBase(base: u64)
    ensures base == base % 0x1_0000 + 0x1_0000 * (base / 0x1_0000 % 0x100)
                    + 0x100_0000 * (base / 0x1_0000 / 0x100 % 0x100)
                    + 0x1_0000_0000 * (base / 0x1_0000 / 0x100 / 0x100)
    ensures base / 0x1_0000 / 0x100 / 0x100 < 0x1_0000_0000
  {
    var upper := base / 0x1_0000;
    assert base == 0x1_0000 * upper + base % 0x1_0000;
    assert upper == 0x100 * (upper / 0x100) + upper % 0x100;
    assert upper / 0x100 == 0x100 * (upper / 0x100 / 0x100) + upper / 0x100 % 0x100;
  }

  lemma TaskStateFields(limit: seq<u8>, low: seq<u8>, mid: u8, limitHigh: u8, midHigh: u8, high: seq<u8>)
    requires |limit| == |low| == 2 && |high| == 4
    ensures var d := limit + low + [mid, 0x89] + [limitHigh, midHigh] + high + [0, 0, 0, 0];
            && d[0..2] == limit && d[2..4] == low && d[4] == mid && d[5] == 0x89 && d[6] == limitHigh
            && d[7] == midHigh && d[8..12] == high
  {
  }
}
