/** What the processor does with page-table bytes: the 4-level walk of section 4.5 of the
    Intel SDM, volume 3A, with the access rights of section 4.6, over raw guest RAM.
    EFER.NXE is clear in every layout of the model, so bit 63 of an entry is reserved. */
module Paging {
  import opened Words

  datatype Translation = Translation(physical: nat, writable: bool, user: bool)

  const PAGE: nat := 0x1000
  const LARGE_PAGE: nat := 0x20_0000

  predicate Canonical(va: u64) {
    va < 0x8000_0000_0000 || va >= 0xFFFF_8000_0000_0000
  }

  /** Entry `index` of the table at `table`; an entry outside RAM reads as not present. */
  function EntryAt(ram: seq<u8>, table: nat, index: nat): nat {
    if table + 8 * index + 8 <= |ram| then U64At(ram, table + 8 * index) else 0
  }

  function Flags(e: nat): nat { e % PAGE }
  predicate Usable(e: nat) { Flags(e) % 2 == 1 && e / 0x8000_0000_0000_0000 % 2 == 0 }
  predicate Writable(e: nat) { Flags(e) / 2 % 2 == 1 }
  predicate User(e: nat) { Flags(e) / 4 % 2 == 1 }
  predicate Large(e: nat) { Flags(e) / 128 % 2 == 1 }
  function Frame(e: nat): nat { e / PAGE % 0x100_0000_0000 * PAGE }

  /** The bytes one entry of a level covers; level 4 is the PML4. */
  function Span(level: nat): (span: nat)
    ensures span > 0
  {
    match level
    case 0 => 1
    case 1 => 0x1000
    case 2 => 0x20_0000
    case 3 => 0x4000_0000
    case _ => 0x80_0000_0000
  }

  function Index(va: u64, level: nat): nat { va / Span(level) % 512 }

  /** A large page of this entry: its reserved address bits must be clear. */
  function LargePage(e: nat, level: nat, va: u64, writable: bool, user: bool): Option<Translation> {
    if level == 2 && e / 0x2000 % 0x100 == 0 then
      Some(Translation(e / 0x20_0000 % 0x8000_0000 * 0x20_0000 + va % 0x20_0000, writable, user))
    else if level == 3 && e / 0x2000 % 0x2_0000 == 0 then
      Some(Translation(e / 0x4000_0000 % 0x40_0000 * 0x4000_0000 + va % 0x4000_0000, writable, user))
    else None
  }

  /** The walk from a table of the given level on, with the rights gathered so far. */
  function WalkFrom(ram: seq<u8>, table: nat, level: nat, va: u64, writable: bool, user: bool): Option<Translation>
    decreases level, 1
  {
    WalkEntry(ram, EntryAt(ram, table, Index(va, level)), level, va, writable, user)
  }

  /** What the walk makes of one entry. */
  function WalkEntry(ram: seq<u8>, e: nat, level: nat, va: u64, writable: bool, user: bool): Option<Translation>
    decreases level, 0
  {
    var w, u := writable && Writable(e), user && User(e);
    if !Usable(e) then None
    else if level <= 1 then Some(Translation(Frame(e) + va % PAGE, w, u))
    else if Large(e) then LargePage(e, level, va, w, u)
    else WalkFrom(ram, Frame(e), level - 1, va, w, u)
  }

  /** The translation of `va` under the root `cr3`, or None when the access faults for want
      of a usable entry at some level. */
  function Walk(ram: seq<u8>, cr3: nat, va: u64): Option<Translation> {
    if Canonical(va) then WalkFrom(ram, Frame(cr3), 4, va, true, true) else None
  }

  /** The 512 entries of the table page at `table` are `entries`. */
  ghost predicate TablePage(ram: seq<u8>, table: nat, entries: seq<nat>) {
    |entries| == 512 && table + PAGE <= |ram|
    && forall i :: 0 <= i < 512 ==> EntryAt(ram, table, i) == entries[i]
  }

  function NoEntries(): (es: seq<nat>)
    ensures |es| == 512
  {
    seq(512, _ => 0)
  }

  /** A table whose only entry is the first. */
  function OnlyFirst(value: nat): (es: seq<nat>)
    ensures |es| == 512
  {
    SetEntry(NoEntries(), 0, value)
  }

  function SetEntry(entries: seq<nat>, index: nat, value: nat): (es: seq<nat>)
    requires index < |entries|
    ensures |es| == |entries|
  {
    entries[index := value]
  }

  /** Zero-filling a page leaves a table without entries. */
  lemma ZeroPageIsEmptyTable(ram: seq<u8>, table: nat)
    requires table + PAGE <= |ram|
    requires forall j :: table <= j < table + PAGE ==> ram[j] == 0
    ensures TablePage(ram, table, NoEntries())
  {
    forall i | 0 <= i < 512 ensures EntryAt(ram, table, i) == 0 {
      var w := ram[table + 8 * i..table + 8 * i + 8];
      assert forall j :: 0 <= j < 8 ==> w[j] == 0;
      LeZero(w);
    }
  }

  lemma {:induction false} LeZero(bytes: seq<u8>)
    requires forall j :: 0 <= j < |bytes| ==> bytes[j] == 0
    ensures LeValue(bytes) == 0
  {
    if bytes != [] { LeZero(bytes[1..]); }
  }

  /** Writing one entry updates exactly that entry. */
  lemma EntryWritten(ram: seq<u8>, table: nat, entries: seq<nat>, index: nat, value: nat)
    requires TablePage(ram, table, entries) && index < 512 && value < U64_LIMIT
    ensures TablePage(Patch(ram, table + 8 * index, LeBytes(value, 8)), table, SetEntry(entries, index, value))
  {
    var at := table + 8 * index;
    U64Written(ram, at, value);
    U64Frame(ram, Patch(ram, at, LeBytes(value, 8)), at, at + 8);
  }

  /** A table page no byte of which changed keeps its entries. */
  lemma TablePageFrame(s: seq<u8>, t: seq<u8>, table: nat, entries: seq<nat>)
    requires TablePage(s, table, entries)
    requires SameOn(s, t, table, table + PAGE)
    ensures TablePage(t, table, entries)
  {
    forall i | 0 <= i < 512 ensures EntryAt(t, table, i) == entries[i] {
      assert EntryAt(s, table, i) == entries[i];
      var at := table + 8 * i;
      assert t[at..at + 8] == s[at..at + 8];
    }
  }

  /** An entry made of a page-aligned address below 16 MiB and low flag bits. */
  lemma FrameOf(page: nat, flags: nat)
    requires page % PAGE == 0 && page < 0x100_0000 && flags < 8
    ensures Frame(page + flags) == page
    ensures Usable(page + flags) <==> flags % 2 == 1
    ensures Writable(page + flags) <==> Writable(flags)
    ensures User(page + flags) <==> User(flags)
    ensures !Large(page + flags)
  {
    var q := page / PAGE;
    ModUnique(page + flags, PAGE, q, flags);
  }

  /** The map of a root with a single leaf table below first entries that allow everything. */
  function LeafMap(leaf: seq<nat>, va: u64): Option<Translation>
    requires |leaf| == 512
  {
    if va >= LARGE_PAGE then None
    else
      var e := leaf[va / PAGE];
      if Usable(e) then Some(Translation(Frame(e) + va % PAGE, Writable(e), User(e))) else None
  }

  // ---------------------------------------------------------------- stepping through a walk

  /** One level of the walk through a table whose only entry, the first, points to `next`. */
  lemma WalkStep(ram: seq<u8>, table: nat, level: nat, next: nat, flags: nat, va: u64, writable: bool, user: bool)
    requires 2 <= level <= 4 && next % PAGE == 0 && next < 0x100_0000 && flags < 8 && flags % 2 == 1
    requires TablePage(ram, table, OnlyFirst(next + flags))
    ensures WalkFrom(ram, table, level, va, writable, user)
         == if Index(va, level) != 0 then None
            else WalkFrom(ram, next, level - 1, va, writable && Writable(flags), user && User(flags))
  {
    assert EntryAt(ram, table, Index(va, level)) == OnlyFirst(next + flags)[Index(va, level)];
    FrameOf(next, flags);
  }

  /** The two upper levels of every root in this model lead to one page directory, and so to
      the first gigabyte only. */
  lemma WalkUpper(ram: seq<u8>, cr3: nat, pdpt: nat, pd: nat, flags: nat, va: u64)
    requires pdpt % PAGE == 0 && pdpt < 0x100_0000 && pd % PAGE == 0 && pd < 0x100_0000
    requires flags < 8 && flags % 2 == 1
    requires TablePage(ram, Frame(cr3), OnlyFirst(pdpt + flags)) && TablePage(ram, pdpt, OnlyFirst(pd + flags))
    ensures Walk(ram, cr3, va)
         == if va >= 0x4000_0000 then None else WalkFrom(ram, pd, 2, va, Writable(flags), User(flags))
  {
    FirstEntryRanges(va);
    WalkStep(ram, Frame(cr3), 4, pdpt, flags, va, true, true);
    WalkStep(ram, pdpt, 3, pd, flags, va, Writable(flags), User(flags));
  }

  /** Which canonical addresses select the first entry of both upper tables. */
  lemma FirstEntryRanges(va: u64)
    ensures Canonical(va) && Index(va, 4) == 0 && Index(va, 3) == 0 <==> va < 0x4000_0000
  {
  }

  lemma LeafWalk(ram: seq<u8>, cr3: nat, pdpt: nat, pd: nat, pt: nat, leaf: seq<nat>, va: u64)
    requires pdpt % PAGE == 0 && pdpt < 0x100_0000 && pd % PAGE == 0 && pd < 0x100_0000
    requires pt % PAGE == 0 && pt < 0x100_0000
    requires TablePage(ram, Frame(cr3), OnlyFirst(pdpt + 7)) && TablePage(ram, pdpt, OnlyFirst(pd + 7))
    requires TablePage(ram, pd, OnlyFirst(pt + 7)) && TablePage(ram, pt, leaf)
    ensures Walk(ram, cr3, va) == LeafMap(leaf, va)
  {
    hide Walk; hide WalkFrom; hide LeafMap;
    WalkUpper(ram, cr3, pdpt, pd, 7, va);
    WalkStep(ram, pd, 2, pt, 7, va, true, true);
    LeafEnd(ram, pt, leaf, va);
  }

  lemma LeafEnd(ram: seq<u8>, pt: nat, leaf: seq<nat>, va: u64)
    requires TablePage(ram, pt, leaf)
    ensures LeafMap(leaf, va)
         == if va >= 0x4000_0000 || Index(va, 2) != 0 then None else WalkFrom(ram, pt, 1, va, true, true)
  {
    if va < LARGE_PAGE {
      assert Index(va, 1) == va / PAGE;
      assert EntryAt(ram, pt, Index(va, 1)) == leaf[va / PAGE];
    } else if va < 0x4000_0000 {
      assert Index(va, 2) == va / 0x20_0000;
    }
  }

  // ---------------------------------------------------------------- accessed and dirty bits

  /** An entry without its accessed and dirty bits, which are bits 5 and 6. */
  function Unmarked(e: nat): nat {
    e / 128 * 128 + e % 32
  }

  lemma UnmarkedParts(e: nat, f: nat)
    requires Unmarked(e) == Unmarked(f)
    ensures e / 128 == f / 128 && e % 32 == f % 32
  {
    ModUnique(Unmarked(e), 128, e / 128, e % 32);
    ModUnique(Unmarked(f), 128, f / 128, f % 32);
  }

  lemma DivideTwice(e: nat, k: nat)
    requires k > 0
    ensures e / (128 * k) == e / 128 / k
  {
    var q := e / 128;
    assert q == k * (q / k) + q % k;
    assert e == (128 * k) * (q / k) + (128 * (q % k) + e % 128);
    ModUnique(e, 128 * k, q / k, 128 * (q % k) + e % 128);
  }

  /** The flags the walk reads, from the low five bits and the bits above the marks. */
  lemma FlagBits(e: nat)
    ensures Flags(e) % 2 == e % 32 % 2
    ensures Writable(e) <==> e % 32 / 2 % 2 == 1
    ensures User(e) <==> e % 32 / 4 % 2 == 1
    ensures Large(e) <==> e / 128 % 2 == 1
  {
    var high, low := e / 128, e % 128;
    ModUnique(e, PAGE, high / 32, 128 * (high % 32) + low);
    ModUnique(e, 32, 4 * high + low / 32, low % 32);
    var f := 128 * (high % 32) + low;
    assert Flags(e) == f;
    ModUnique(f, 128, high % 32, low);
    ModUnique(f, 32, 4 * (high % 32) + low / 32, low % 32);
    LowFlags(f);
  }

  lemma LowFlags(f: nat)
    ensures f % 2 == f % 32 % 2 && f / 2 % 2 == f % 32 / 2 % 2 && f / 4 % 2 == f % 32 / 4 % 2
  {
    var q, r := f / 32, f % 32;
    assert f % 2 == r % 2 by { ModUnique(f, 2, 16 * q + r / 2, r % 2); }
    assert f / 2 % 2 == r / 2 % 2 by {
      ModUnique(f, 2, 16 * q + r / 2, r % 2);
      ModUnique(16 * q + r / 2, 2, 8 * q + r / 2 / 2, r / 2 % 2);
    }
    assert f / 4 % 2 == r / 4 % 2 by {
      ModUnique(f, 4, 8 * q + r / 4, r % 4);
      ModUnique(8 * q + r / 4, 2, 4 * q + r / 4 / 2, r / 4 % 2);
    }
  }

  /** Nothing the walk reads of an entry depends on the marks. */
  lemma UnmarkedFields(e: nat, f: nat)
    requires Unmarked(e) == Unmarked(f)
    ensures Usable(e) == Usable(f) && Flags(e) % 2 == Flags(f) % 2
    ensures Writable(e) == Writable(f) && User(e) == User(f) && Large(e) == Large(f) && Frame(e) == Frame(f)
    ensures forall level: nat, va: u64, w: bool, u: bool ::
              LargePage(e, level, va, w, u) == LargePage(f, level, va, w, u)
  {
    UnmarkedParts(e, f);
    FlagBits(e); FlagBits(f);
    hide Writable; hide User; hide Large; hide Flags;
    DivideTwice(e, 32); DivideTwice(f, 32);
    DivideTwice(e, 64); DivideTwice(f, 64);
    DivideTwice(e, 0x4000); DivideTwice(f, 0x4000);
    DivideTwice(e, 0x80_0000); DivideTwice(f, 0x80_0000);
    DivideTwice(e, 0x100_0000_0000_0000); DivideTwice(f, 0x100_0000_0000_0000);
  }

  /** The same memory but for marks, in whatever words: every aligned word is the same unmarked. */
  ghost predicate UpToMarks(s: seq<u8>, t: seq<u8>) {
    |s| == |t| && forall p: nat {:trigger U64At(t, p)} ::
      p % 8 == 0 && p + 8 <= |s| ==> Unmarked(U64At(s, p)) == Unmarked(U64At(t, p))
  }

  lemma EntryUpToMarks(s: seq<u8>, t: seq<u8>, table: nat, index: nat)
    requires UpToMarks(s, t) && table % 8 == 0
    ensures Unmarked(EntryAt(s, table, index)) == Unmarked(EntryAt(t, table, index))
  {
    hide Unmarked;
    var at := table + 8 * index;
    assert at % 8 == 0;
    if at + 8 <= |s| { assert Unmarked(U64At(s, at)) == Unmarked(U64At(t, at)); }
  }

  lemma FrameAligned(e: nat)
    ensures Frame(e) % 8 == 0
  {
    var q := e / PAGE % 0x100_0000_0000;
    ModUnique(q * PAGE, 8, q * 512, 0);
  }

  lemma {:induction false} WalkFromUpToMarks(s: seq<u8>, t: seq<u8>, table: nat, level: nat, va: u64, w: bool, u: bool)
    requires UpToMarks(s, t) && table % 8 == 0
    ensures WalkFrom(s, table, level, va, w, u) == WalkFrom(t, table, level, va, w, u)
    decreases level
  {
    hide UpToMarks; hide Unmarked; hide EntryAt; hide Index; hide LargePage;
    hide Frame; hide Usable; hide Writable; hide User; hide Large;
    var e, f := EntryAt(s, table, Index(va, level)), EntryAt(t, table, Index(va, level));
    EntryUpToMarks(s, t, table, Index(va, level));
    UnmarkedFields(e, f);
    if level > 1 {
      FrameAligned(e);
      WalkFromUpToMarks(s, t, Frame(e), level - 1, va, w && Writable(e), u && User(e));
    }
  }

  /** Marks change no translation, under any root. */
  lemma WalkUpToMarks(s: seq<u8>, t: seq<u8>, cr3: nat, va: u64)
    requires UpToMarks(s, t)
    ensures Walk(s, cr3, va) == Walk(t, cr3, va)
  {
    hide WalkFrom; hide UpToMarks; hide Frame;
    FrameAligned(cr3);
    if Canonical(va) { WalkFromUpToMarks(s, t, Frame(cr3), 4, va, true, true); }
  }
}
