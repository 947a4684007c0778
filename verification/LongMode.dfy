/** The bootstrap page tables: which layouts are accepted, the bytes installed for one, and
    what the processor then translates (src/long_mode.rs). */
module LongMode {
  import opened Words
  import opened GuestRam
  import opened Paging

  const IDENTITY_MAP_SIZE: u64 := 0x20_0000
  const ALIAS_VIRTUAL_BASE: u64 := 0x40_0000
  const ALIAS_VIRTUAL_END: u64 := 0x60_0000
  const PML4_ADDR: u64 := 0x1000
  const PDPT_ADDR: u64 := 0x2000
  const PD_ADDR: u64 := 0x3000
  const ALIAS_PT_ADDR: u64 := 0x4000
  const PAGE_TABLE_END: u64 := 0x5000
  const PAGE_TABLE_ENTRY_FLAGS: u64 := 0x3
  const LARGE_PAGE_ENTRY_FLAGS: u64 := 0x83
  const ALIAS_PD_INDEX: u64 := ALIAS_VIRTUAL_BASE / IDENTITY_MAP_SIZE

  datatype PageMapping = PageMapping(virtualPage: u64, physicalPage: u64)

  datatype ConfigError =
    | RamMustStartAtZero(base: u64)
    | RamTooSmall(size: u64)
    | EntryOutsideIdentityMap(entry: u64)
    | EntryOutsideMappedRanges(entry: u64)
    | EntryOverlapsPageTables(entry: u64)
    | EntryPageNotMapped(entry: u64, virtualPage: u64)
    | StackPointerOutsideIdentityMap(stackPointer: u64)
    | StackPointerOverlapsPageTables(stackPointer: u64)
    | MappingVirtualPageMisaligned(virtualPage: u64)
    | MappingOutsideAliasWindow(virtualPage: u64)
    | MappingPhysicalPageMisaligned(physicalPage: u64)
    | MappingPhysicalPageOutsideRam(physicalPage: u64)
    | MappingPhysicalPageOverlapsPageTables(physicalPage: u64)
    | DuplicateVirtualPage(virtualPage: u64)

  datatype BootLayout = BootLayout(memory: Region, entry: u64, stackPointer: u64, mappings: seq<PageMapping>)

  predicate IsPageTableAddress(address: u64) { PML4_ADDR <= address < PAGE_TABLE_END }

  predicate RangesOverlap(start: int, end: int, otherStart: int, otherEnd: int) {
    start < otherEnd && otherStart < end
  }

  function AlignDownPage(address: u64): u64 { address - address % PAGE }

  /** The source aligns with a mask: `address & !(PAGE - 1)`. */
  lemma MaskAlignsDown(address: u64)
    ensures And(address, 0xFFFF_FFFF_FFFF_F000) == AlignDownPage(address)
  {
    AlignDown4K(address);
  }

  function ValidateMemoryAndStack(memory: Region, stackPointer: u64): Result<(), ConfigError> {
    if memory.base != 0 then Err(RamMustStartAtZero(memory.base))
    else if memory.size < IDENTITY_MAP_SIZE then Err(RamTooSmall(memory.size))
    else if stackPointer == 0 || stackPointer > IDENTITY_MAP_SIZE then
      Err(StackPointerOutsideIdentityMap(stackPointer))
    else if PML4_ADDR < stackPointer <= PAGE_TABLE_END then Err(StackPointerOverlapsPageTables(stackPointer))
    else Ok(())
  }

  /** RAM from zero that covers the low 2 MiB, and a stack whose first byte, just below the
      pointer, lies in them and off the four table pages. */
  lemma StackAcceptedExact(memory: Region, stackPointer: u64)
    ensures ValidateMemoryAndStack(memory, stackPointer).Ok? <==>
            && memory.base == 0 && memory.size >= 0x20_0000
            && 0 <= stackPointer - 1 < 0x20_0000 && !(0x1000 <= stackPointer - 1 < 0x5000)
  {
  }

  // ---------------------------------------------------------------- accepted mappings

  predicate MappingOk(m: PageMapping) {
    m.virtualPage % PAGE == 0 && ALIAS_VIRTUAL_BASE <= m.virtualPage < ALIAS_VIRTUAL_END
    && m.physicalPage % PAGE == 0 && m.physicalPage + PAGE <= IDENTITY_MAP_SIZE
    && !RangesOverlap(m.physicalPage, m.physicalPage + PAGE, PML4_ADDR, PAGE_TABLE_END)
  }

  /** Every page mapping is admissible and no virtual page is mapped twice. */
  predicate MappingsOk(mappings: seq<PageMapping>) {
    && (forall i :: 0 <= i < |mappings| ==> MappingOk(mappings[i]))
    && (forall i, j :: 0 <= i < j < |mappings| ==> mappings[i].virtualPage != mappings[j].virtualPage)
  }

  predicate MapsPage(mappings: seq<PageMapping>, page: u64) {
    exists i :: 0 <= i < |mappings| && mappings[i].virtualPage == page
  }

  /** What is wrong with mapping `i`, given the mappings before it: the checks of the source
      in their order. */
  function MappingProblem(mappings: seq<PageMapping>, i: nat): Option<ConfigError>
    requires i < |mappings|
  {
    var m := mappings[i];
    if m.virtualPage % PAGE != 0 then Some(MappingVirtualPageMisaligned(m.virtualPage))
    else if m.virtualPage < ALIAS_VIRTUAL_BASE || m.virtualPage >= ALIAS_VIRTUAL_END then
      Some(MappingOutsideAliasWindow(m.virtualPage))
    else if m.physicalPage % PAGE != 0 then Some(MappingPhysicalPageMisaligned(m.physicalPage))
    else if m.physicalPage + PAGE >= U64_LIMIT || m.physicalPage + PAGE > IDENTITY_MAP_SIZE then
      Some(MappingPhysicalPageOutsideRam(m.physicalPage))
    else if RangesOverlap(m.physicalPage, m.physicalPage + PAGE, PML4_ADDR, PAGE_TABLE_END) then
      Some(MappingPhysicalPageOverlapsPageTables(m.physicalPage))
    else if MapsPage(mappings[..i], m.virtualPage) then Some(DuplicateVirtualPage(m.virtualPage))
    else None
  }

  /** A reported problem is one the mapping has, and a mapping without one is admissible and new. */
  lemma MappingProblemTells(mappings: seq<PageMapping>, i: nat)
    requires i < |mappings|
    ensures var m := mappings[i];
            match MappingProblem(mappings, i)
            case None => MappingOk(m) && !MapsPage(mappings[..i], m.virtualPage)
            case Some(MappingVirtualPageMisaligned(page)) => page == m.virtualPage && page % 0x1000 != 0
            case Some(MappingOutsideAliasWindow(page)) => page == m.virtualPage && !(0x40_0000 <= page < 0x60_0000)
            case Some(MappingPhysicalPageMisaligned(page)) => page == m.physicalPage && page % 0x1000 != 0
            case Some(MappingPhysicalPageOutsideRam(page)) => page == m.physicalPage && page + 0x1000 > 0x20_0000
            case Some(MappingPhysicalPageOverlapsPageTables(page)) =>
              page == m.physicalPage && 0x1000 <= page < 0x5000
            case Some(DuplicateVirtualPage(page)) => page == m.virtualPage && MapsPage(mappings[..i], page)
            case Some(_) => false
  {
  }

  /** The problem of the first offending mapping. */
  ghost predicate FirstMappingProblem(mappings: seq<PageMapping>, error: ConfigError) {
    exists i :: 0 <= i < |mappings| && MappingProblem(mappings, i) == Some(error)
                && forall j :: 0 <= j < i ==> MappingProblem(mappings, j).None?
  }

  /** The scan accepts exactly the admissible, duplicate-free lists, and otherwise reports the
      problem of the first offending mapping. */
  method ValidatePageMappings(mappings: seq<PageMapping>) returns (r: Result<(), ConfigError>)
    ensures r.Ok? <==> MappingsOk(mappings)
    ensures r.Err? ==> FirstMappingProblem(mappings, r.error)
  {
    for index := 0 to |mappings|
      invariant forall j :: 0 <= j < index ==> MappingProblem(mappings, j).None?
      invariant MappingsOk(mappings[..index])
    {
      var problem := MappingProblem(mappings, index);
      assert mappings[..index + 1] == mappings[..index] + [mappings[index]];
      if problem.Some? {
        if problem.value.DuplicateVirtualPage? {
          var i :| 0 <= i < |mappings[..index]| && mappings[..index][i].virtualPage == mappings[index].virtualPage;
          assert mappings[i].virtualPage == mappings[index].virtualPage;
        }
        return Err(problem.value);
      }
      assert forall i :: 0 <= i < index ==> mappings[..index][i].virtualPage != mappings[index].virtualPage;
    }
    assert mappings[..|mappings|] == mappings;
    return Ok(());
  }

  // ---------------------------------------------------------------- accepted layouts

  /** The layouts `WithPageMappings` accepts. */
  predicate Accepted(l: BootLayout) {
    && ValidateMemoryAndStack(l.memory, l.stackPointer).Ok?
    && MappingsOk(l.mappings)
    && (|| (l.entry < IDENTITY_MAP_SIZE && !IsPageTableAddress(l.entry))
        || MapsPage(l.mappings, l.entry - l.entry % PAGE))
  }

  /** `LongModeBootLayout::new`: the identity map alone. */
  function NewBoot(memory: Region, entry: u64, stackPointer: u64): (r: Result<BootLayout, ConfigError>)
    ensures r.Ok? <==> Accepted(BootLayout(memory, entry, stackPointer, []))
    ensures r.Ok? ==> r.value == BootLayout(memory, entry, stackPointer, [])
  {
    var checked := ValidateMemoryAndStack(memory, stackPointer);
    if checked.Err? then Err(checked.error)
    else if entry >= IDENTITY_MAP_SIZE then Err(EntryOutsideIdentityMap(entry))
    else if IsPageTableAddress(entry) then Err(EntryOverlapsPageTables(entry))
    else Ok(BootLayout(memory, entry, stackPointer, []))
  }

  method WithPageMappings(memory: Region, entry: u64, stackPointer: u64, mappings: seq<PageMapping>)
    returns (r: Result<BootLayout, ConfigError>)
    ensures r.Ok? <==> Accepted(BootLayout(memory, entry, stackPointer, mappings))
    ensures r.Ok? ==> r.value == BootLayout(memory, entry, stackPointer, mappings)
    ensures r.Err? ==>
              var stack := ValidateMemoryAndStack(memory, stackPointer);
              if stack.Err? then r.error == stack.error
              else if !MappingsOk(mappings) then FirstMappingProblem(mappings, r.error)
              else if entry < IDENTITY_MAP_SIZE then r.error == EntryOverlapsPageTables(entry)
              else if ALIAS_VIRTUAL_BASE <= entry < ALIAS_VIRTUAL_END then
                r.error == EntryPageNotMapped(entry, entry - entry % PAGE)
              else r.error == EntryOutsideMappedRanges(entry)
  {
    hide FirstMappingProblem;
    var _ :- ValidateMemoryAndStack(memory, stackPointer);
    var _ :- ValidatePageMappings(mappings);
    if entry < IDENTITY_MAP_SIZE {
      if IsPageTableAddress(entry) { return Err(EntryOverlapsPageTables(entry)); }
    } else if ALIAS_VIRTUAL_BASE <= entry < ALIAS_VIRTUAL_END {
      MaskAlignsDown(entry);
      var virtualPage := And(entry, 0xFFFF_FFFF_FFFF_F000);
      if !MapsPage(mappings, virtualPage) { return Err(EntryPageNotMapped(entry, virtualPage)); }
    } else {
      return Err(EntryOutsideMappedRanges(entry));
    }
    return Ok(BootLayout(memory, entry, stackPointer, mappings));
  }

  // ---------------------------------------------------------------- the abstract map

  /** The physical page a virtual page is mapped to. */
  function Lookup(mappings: seq<PageMapping>, page: nat): Option<u64> {
    if mappings == [] then None
    else
      var m := mappings[|mappings| - 1];
      if m.virtualPage == page then Some(m.physicalPage) else Lookup(mappings[..|mappings| - 1], page)
  }

  /** In a duplicate-free list the lookup finds each mapping, and finds nothing else. */
  lemma {:induction false} LookupExact(mappings: seq<PageMapping>, page: u64)
    requires MappingsOk(mappings)
    ensures Lookup(mappings, page).Some? <==> MapsPage(mappings, page)
    ensures forall i :: 0 <= i < |mappings| && mappings[i].virtualPage == page ==>
                          Lookup(mappings, page) == Some(mappings[i].physicalPage)
  {
    if mappings != [] {
      var n := |mappings| - 1;
      LookupExact(mappings[..n], page);
      if mappings[n].virtualPage == page {
        assert MapsPage(mappings, page);
      } else if MapsPage(mappings, page) {
        var i :| 0 <= i < |mappings| && mappings[i].virtualPage == page;
        assert mappings[..n][i].virtualPage == page;
      }
    }
  }

  /** What the bootstrap tables are meant to translate: the low 2 MiB to themselves, mapped
      alias pages to their physical page, nothing else; all of it supervisor and writable. */
  function BootMap(mappings: seq<PageMapping>, va: u64): Option<Translation> {
    if va < IDENTITY_MAP_SIZE then Some(Translation(va, true, false))
    else match Lookup(mappings, va - va % PAGE)
      case Some(physical) => Some(Translation(physical + va % PAGE, true, false))
      case None => None
  }

  // ---------------------------------------------------------------- the table entries

  function AliasIndex(m: PageMapping): (i: nat)
    requires MappingOk(m)
    ensures i < 512
  {
    (m.virtualPage - ALIAS_VIRTUAL_BASE) / PAGE
  }

  function AliasEntries(mappings: seq<PageMapping>): (es: seq<nat>)
    requires forall i :: 0 <= i < |mappings| ==> MappingOk(mappings[i])
    ensures |es| == 512
  {
    if mappings == [] then NoEntries()
    else
      var m := mappings[|mappings| - 1];
      SetEntry(AliasEntries(mappings[..|mappings| - 1]), AliasIndex(m), m.physicalPage + PAGE_TABLE_ENTRY_FLAGS)
  }

  lemma {:induction false} AliasEntriesLookup(mappings: seq<PageMapping>, index: nat)
    requires forall i :: 0 <= i < |mappings| ==> MappingOk(mappings[i])
    requires index < 512
    ensures match Lookup(mappings, ALIAS_VIRTUAL_BASE + PAGE * index)
            case Some(p) => AliasEntries(mappings)[index] == p + 3 && p % PAGE == 0 && p < IDENTITY_MAP_SIZE
            case None => AliasEntries(mappings)[index] == 0
  {
    if mappings != [] {
      var n := |mappings| - 1;
      AliasEntriesLookup(mappings[..n], index);
    }
  }

  function PdEntries(aliasLinked: bool): (es: seq<nat>)
    ensures |es| == 512
  {
    var identity := OnlyFirst(LARGE_PAGE_ENTRY_FLAGS);
    if aliasLinked then SetEntry(identity, ALIAS_PD_INDEX, ALIAS_PT_ADDR + PAGE_TABLE_ENTRY_FLAGS) else identity
  }

  /** The four table pages, PML4 to alias page table. */
  ghost predicate BootTables(ram: seq<u8>, mappings: seq<PageMapping>) {
    && MappingsOk(mappings)
    && TablePage(ram, PML4_ADDR, OnlyFirst(PDPT_ADDR + PAGE_TABLE_ENTRY_FLAGS))
    && TablePage(ram, PDPT_ADDR, OnlyFirst(PD_ADDR + PAGE_TABLE_ENTRY_FLAGS))
    && TablePage(ram, PD_ADDR, PdEntries(mappings != []))
    && TablePage(ram, ALIAS_PT_ADDR, AliasEntries(mappings))
  }

  /** The installed entries, walked by the processor, are the abstract map: at every virtual
      address, whatever else is in RAM. */
  lemma BootWalk(ram: seq<u8>, mappings: seq<PageMapping>, va: u64)
    requires BootTables(ram, mappings)
    ensures Walk(ram, PML4_ADDR, va) == BootMap(mappings, va)
  {
    hide Walk; hide WalkFrom;
    assert Frame(PML4_ADDR) == PML4_ADDR;
    WalkUpper(ram, PML4_ADDR, PDPT_ADDR, PD_ADDR, 3, va);
    if va < 0x4000_0000 {
      DirectoryWalk(ram, mappings, va);
    } else {
      LookupOutsideWindow(mappings, va - va % PAGE);
    }
  }

  lemma BootWalkAll(ram: seq<u8>, mappings: seq<PageMapping>)
    requires BootTables(ram, mappings)
    ensures forall va: u64 :: Walk(ram, PML4_ADDR, va) == BootMap(mappings, va)
  {
    forall va: u64 ensures Walk(ram, PML4_ADDR, va) == BootMap(mappings, va) {
      BootWalk(ram, mappings, va);
    }
  }

  lemma DirectoryWalk(ram: seq<u8>, mappings: seq<PageMapping>, va: u64)
    requires MappingsOk(mappings) && va < 0x4000_0000
    requires TablePage(ram, PD_ADDR, PdEntries(mappings != []))
    requires TablePage(ram, ALIAS_PT_ADDR, AliasEntries(mappings))
    ensures WalkFrom(ram, PD_ADDR, 2, va, true, false) == BootMap(mappings, va)
  {
    var index := Index(va, 2);
    assert index == va / 0x20_0000;
    assert EntryAt(ram, PD_ADDR, index) == PdEntries(mappings != [])[index];
    if index == 0 {
      LargeIdentityPage(ram, va);
    } else if index == ALIAS_PD_INDEX && mappings != [] {
      AliasDirectoryEntry(ram, va);
      AliasWalk(ram, mappings, va);
    } else {
      LookupOutsideWindow(mappings, va - va % PAGE);
    }
  }

  lemma LargeIdentityPage(ram: seq<u8>, va: u64)
    requires va < IDENTITY_MAP_SIZE
    ensures WalkEntry(ram, LARGE_PAGE_ENTRY_FLAGS, 2, va, true, false) == Some(Translation(va, true, false))
  {
  }

  lemma AliasDirectoryEntry(ram: seq<u8>, va: u64)
    ensures WalkEntry(ram, ALIAS_PT_ADDR + PAGE_TABLE_ENTRY_FLAGS, 2, va, true, false)
         == WalkFrom(ram, ALIAS_PT_ADDR, 1, va, true, false)
  {
    FrameOf(ALIAS_PT_ADDR, 3);
  }

  lemma AliasWalk(ram: seq<u8>, mappings: seq<PageMapping>, va: u64)
    requires MappingsOk(mappings) && TablePage(ram, ALIAS_PT_ADDR, AliasEntries(mappings))
    requires ALIAS_VIRTUAL_BASE <= va < ALIAS_VIRTUAL_END
    ensures WalkFrom(ram, ALIAS_PT_ADDR, 1, va, true, false) == BootMap(mappings, va)
  {
    var index := Index(va, 1);
    assert ALIAS_VIRTUAL_BASE + PAGE * index == va - va % PAGE;
    AliasEntriesLookup(mappings, index);
    match Lookup(mappings, va - va % PAGE)
    case Some(p) => FrameOf(p, 3);
    case None =>
  }

  lemma {:induction false} LookupOutsideWindow(mappings: seq<PageMapping>, page: nat)
    requires forall i :: 0 <= i < |mappings| ==> MappingOk(mappings[i])
    ensures Lookup(mappings, page).Some? ==> ALIAS_VIRTUAL_BASE <= page < ALIAS_VIRTUAL_END
  {
    if mappings != [] { LookupOutsideWindow(mappings[..|mappings| - 1], page); }
  }

  /** Changing any byte outside the four table pages changes no translation. */
  lemma BootTranslationsFrame(s: seq<u8>, t: seq<u8>, mappings: seq<PageMapping>)
    requires BootTables(s, mappings) && SameOn(s, t, PML4_ADDR, PAGE_TABLE_END)
    ensures BootTables(t, mappings)
    ensures forall va: u64 :: Walk(t, PML4_ADDR, va) == Walk(s, PML4_ADDR, va)
  {
    TablePageFrame(s, t, PML4_ADDR, OnlyFirst(PDPT_ADDR + PAGE_TABLE_ENTRY_FLAGS));
    TablePageFrame(s, t, PDPT_ADDR, OnlyFirst(PD_ADDR + PAGE_TABLE_ENTRY_FLAGS));
    TablePageFrame(s, t, PD_ADDR, PdEntries(mappings != []));
    TablePageFrame(s, t, ALIAS_PT_ADDR, AliasEntries(mappings));
    forall va: u64 ensures Walk(t, PML4_ADDR, va) == Walk(s, PML4_ADDR, va) {
      BootWalk(s, mappings, va);
      BootWalk(t, mappings, va);
    }
  }

  /** The entry point of an accepted layout is executable memory: it translates into RAM, off
      the page tables. */
  lemma EntryTranslates(l: BootLayout)
    requires Accepted(l)
    ensures BootMap(l.mappings, l.entry).Some?
    ensures BootMap(l.mappings, l.entry).value.physical < IDENTITY_MAP_SIZE
    ensures !IsPageTableAddress(BootMap(l.mappings, l.entry).value.physical)
  {
    LookupExact(l.mappings, l.entry - l.entry % PAGE);
  }

  // ---------------------------------------------------------------- installing

  /** So is its stack: the byte a first push reaches is writable and off the page tables. */
  lemma StackTranslates(ram: seq<u8>, l: BootLayout)
    requires Accepted(l) && BootTables(ram, l.mappings)
    ensures l.stackPointer >= 1
    ensures Walk(ram, 0x1000, l.stackPointer - 1) == Some(Translation(l.stackPointer - 1, true, false))
    ensures !(0x1000 <= l.stackPointer - 1 < 0x5000)
  {
    hide Walk;
    StackAcceptedExact(l.memory, l.stackPointer);
    BootWalk(ram, l.mappings, l.stackPointer - 1);
  }

  /** `write_u64` at slot `index` of a table page. */
  method WriteEntry(memory: GuestMemory, table: u64, index: nat, value: nat, ghost entries: seq<nat>)
    returns (r: Result<(), MemoryError>)
    requires memory.Valid() && memory.region.base == 0 && index < 512 && value < U64_LIMIT
    requires TablePage(memory.Bytes(), table, entries)
    modifies memory.ram
    ensures r.Ok?
    ensures TablePage(memory.Bytes(), table, SetEntry(entries, index, value))
    ensures SameOutside(old(memory.Bytes()), memory.Bytes(), table, table + PAGE)
  {
    EntryWritten(memory.Bytes(), table, entries, index, value);
    r := memory.Write(table + index * 8, LeBytes(value, 8));
  }

  /** Replaces the only entry of a table page. */
  method WriteFirst(memory: GuestMemory, table: u64, value: nat, ghost before: nat) returns (r: Result<(), MemoryError>)
    requires memory.Valid() && memory.region.base == 0 && value < U64_LIMIT
    requires TablePage(memory.Bytes(), table, OnlyFirst(before))
    modifies memory.ram
    ensures r.Ok?
    ensures TablePage(memory.Bytes(), table, OnlyFirst(value))
    ensures SameOutside(old(memory.Bytes()), memory.Bytes(), table, table + PAGE)
  {
    r := WriteEntry(memory, table, 0, value, OnlyFirst(before));
    assert SetEntry(OnlyFirst(before), 0, value) == OnlyFirst(value);
  }

  /** Zero-fills `count` consecutive pages, one write per page. */
  method ZeroPages(memory: GuestMemory, base: nat, count: nat) returns (r: Result<(), MemoryError>)
    requires memory.Valid() && memory.region.base == 0 && base + PAGE * count <= memory.region.size
    modifies memory.ram
    ensures r.Ok?
    ensures forall j :: base <= j < base + PAGE * count ==> memory.Bytes()[j] == 0
    ensures SameOutside(old(memory.Bytes()), memory.Bytes(), base, base + PAGE * count)
  {
    r := Ok(());
    var zeroPage := seq(PAGE, _ => 0);
    for t := 0 to count
      invariant forall j :: base <= j < base + PAGE * t ==> memory.Bytes()[j] == 0
      invariant r.Ok?
      invariant SameOutside(old(memory.Bytes()), memory.Bytes(), base, base + PAGE * t)
    {
      r := memory.Write(base + PAGE * t, zeroPage);
    }
  }

  /** After installation every virtual address translates as the abstract map says, and only
      the four table pages were written. */
  method InstallPageTables(layout: BootLayout, memory: GuestMemory) returns (r: Result<(), MemoryError>)
    requires memory.Valid() && Accepted(layout) && memory.region == layout.memory
    modifies memory.ram
    ensures r.Ok?
    ensures BootTables(memory.Bytes(), layout.mappings)
    ensures forall va: u64 :: Walk(memory.Bytes(), PML4_ADDR, va) == BootMap(layout.mappings, va)
    ensures SameOutside(old(memory.Bytes()), memory.Bytes(), PML4_ADDR, PAGE_TABLE_END)
  {
    r := InstallIdentityMap(memory);
    if layout.mappings != [] {
      ghost var before := memory.Bytes();
      PageOr(ALIAS_PT_ADDR, 3);
      r := WriteEntry(memory, PD_ADDR, ALIAS_PD_INDEX, Or(ALIAS_PT_ADDR, PAGE_TABLE_ENTRY_FLAGS), PdEntries(false));
      ghost var linked := memory.Bytes();
      TablePageFrame(before, linked, ALIAS_PT_ADDR, NoEntries());
      r := InstallAliases(layout.mappings, memory);
      TablePageFrame(linked, memory.Bytes(), PD_ADDR, PdEntries(true));
      TablePageFrame(before, memory.Bytes(), PML4_ADDR, OnlyFirst(PDPT_ADDR + PAGE_TABLE_ENTRY_FLAGS));
      TablePageFrame(before, memory.Bytes(), PDPT_ADDR, OnlyFirst(PD_ADDR + PAGE_TABLE_ENTRY_FLAGS));
    }
    BootWalkAll(memory.Bytes(), layout.mappings);
  }

  /** Clears the four pages and links the large identity page. */
  method InstallIdentityMap(memory: GuestMemory) returns (r: Result<(), MemoryError>)
    requires memory.Valid() && memory.region.base == 0 && memory.region.size >= IDENTITY_MAP_SIZE
    modifies memory.ram
    ensures r.Ok?
    ensures BootTables(memory.Bytes(), [])
    ensures SameOutside(old(memory.Bytes()), memory.Bytes(), PML4_ADDR, PAGE_TABLE_END)
  {
    hide TablePage; hide NoEntries; hide Or;
    r := ZeroPages(memory, PML4_ADDR, 4);
    ghost var cleared := memory.Bytes();
    ZeroPageIsEmptyTable(cleared, PML4_ADDR); ZeroPageIsEmptyTable(cleared, PDPT_ADDR);
    ZeroPageIsEmptyTable(cleared, PD_ADDR); ZeroPageIsEmptyTable(cleared, ALIAS_PT_ADDR);
    PageOr(PDPT_ADDR, 3); PageOr(PD_ADDR, 3);
    r := WriteEntry(memory, PML4_ADDR, 0, Or(PDPT_ADDR, PAGE_TABLE_ENTRY_FLAGS), NoEntries());
    ghost var first := memory.Bytes();
    TablePageFrame(cleared, first, PDPT_ADDR, NoEntries());
    r := WriteEntry(memory, PDPT_ADDR, 0, Or(PD_ADDR, PAGE_TABLE_ENTRY_FLAGS), NoEntries());
    ghost var second := memory.Bytes();
    TablePageFrame(cleared, second, PD_ADDR, NoEntries());
    r := WriteEntry(memory, PD_ADDR, 0, LARGE_PAGE_ENTRY_FLAGS, NoEntries());
    TablePageFrame(first, memory.Bytes(), PML4_ADDR, OnlyFirst(PDPT_ADDR + PAGE_TABLE_ENTRY_FLAGS));
    TablePageFrame(second, memory.Bytes(), PDPT_ADDR, OnlyFirst(PD_ADDR + PAGE_TABLE_ENTRY_FLAGS));
    TablePageFrame(cleared, memory.Bytes(), ALIAS_PT_ADDR, NoEntries());
  }

  /** The mapping loop fills the alias table with one entry per mapping. */
  method InstallAliases(mappings: seq<PageMapping>, memory: GuestMemory) returns (r: Result<(), MemoryError>)
    requires memory.Valid() && memory.region.base == 0 && MappingsOk(mappings)
    requires TablePage(memory.Bytes(), ALIAS_PT_ADDR, NoEntries())
    modifies memory.ram
    ensures r.Ok?
    ensures TablePage(memory.Bytes(), ALIAS_PT_ADDR, AliasEntries(mappings))
    ensures SameOutside(old(memory.Bytes()), memory.Bytes(), ALIAS_PT_ADDR, PAGE_TABLE_END)
  {
    r := Ok(());
    for k := 0 to |mappings|
      invariant r.Ok?
      invariant TablePage(memory.Bytes(), ALIAS_PT_ADDR, AliasEntries(mappings[..k]))
      invariant SameOutside(old(memory.Bytes()), memory.Bytes(), ALIAS_PT_ADDR, PAGE_TABLE_END)
    {
      var m := mappings[k];
      PageOr(m.physicalPage, 3);
      assert mappings[..k + 1][..k] == mappings[..k] && mappings[..k + 1][k] == m;
      r := WriteEntry(memory, ALIAS_PT_ADDR, AliasIndex(m), Or(m.physicalPage, PAGE_TABLE_ENTRY_FLAGS),
                      AliasEntries(mappings[..k]));
    }
    assert mappings[..|mappings|] == mappings;
  }
}
