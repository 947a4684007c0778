/** Two address spaces over the ring-3 layout: a second root that maps the same user pages to
    other physical frames (src/address_space.rs). */
module AddressSpaces {
  import opened Words
  import opened GuestRam
  import opened Paging
  import opened LongMode
  import P = Privilege

  const A_CR3: u64 := PML4_ADDR
  const B_PML4_ADDR: u64 := 0xb000
  const B_PDPT_ADDR: u64 := 0xc000
  const B_PD_ADDR: u64 := 0xd000
  const B_PT_ADDR: u64 := 0xe000
  const CR3_OBSERVATION_ADDR: u64 := 0xf000
  const B_TABLES_END: u64 := 0x1_0000
  const B_USER_CODE_BACKING: u64 := 0x2_0000
  const B_USER_DATA_BACKING: u64 := 0x2_1000
  const B_USER_STACK_BACKING: u64 := 0x2_2000
  const USER_DATA_PAGE: u64 := 0xa000

  // ---------------------------------------------------------------- layout validation

  datatype ReservedPage = BPml4 | BPdpt | BPd | BPt | Cr3Observation | BUserCode | BUserData | BUserStack

  datatype AddressSpaceConfigError =
    | PrivilegeProblem(error: P.PrivilegeConfigError)
    | MisalignedAddress(role: ReservedPage, address: u64)
    | AddressOutsideMemory(role: ReservedPage, address: u64)
    | DuplicateReservedPage(first: ReservedPage, second: ReservedPage, address: u64)

  datatype AddressSpaceLayout = AddressSpaceLayout(privilege: P.PrivilegeLayout, memory: Region)

  const RESERVED: seq<(ReservedPage, u64)> :=
    [(BPml4, B_PML4_ADDR), (BPdpt, B_PDPT_ADDR), (BPd, B_PD_ADDR), (BPt, B_PT_ADDR),
     (Cr3Observation, CR3_OBSERVATION_ADDR), (BUserCode, B_USER_CODE_BACKING),
     (BUserData, B_USER_DATA_BACKING), (BUserStack, B_USER_STACK_BACKING)]

  /** The first misplaced page of a list. */
  function PlacementProblem(memory: Region, pages: seq<(ReservedPage, u64)>): Option<AddressSpaceConfigError> {
    if pages == [] then None
    else
      var (role, address) := pages[0];
      if address % PAGE != 0 then Some(MisalignedAddress(role, address))
      else if address < memory.base || address + PAGE > memory.End() then Some(AddressOutsideMemory(role, address))
      else PlacementProblem(memory, pages[1..])
  }

  /** The first later page of a list that coincides with `page`. */
  function ClashWith(page: (ReservedPage, u64), pages: seq<(ReservedPage, u64)>): Option<AddressSpaceConfigError> {
    if pages == [] then None
    else if pages[0].1 == page.1 then Some(DuplicateReservedPage(page.0, pages[0].0, page.1))
    else ClashWith(page, pages[1..])
  }

  function DuplicateProblem(pages: seq<(ReservedPage, u64)>): Option<AddressSpaceConfigError> {
    if pages == [] then None
    else
      var clash := ClashWith(pages[0], pages[1..]);
      if clash.Some? then clash else DuplicateProblem(pages[1..])
  }

  function New(memory: Region): Result<AddressSpaceLayout, AddressSpaceConfigError> {
    var privilege := P.New(memory);
    if privilege.Err? then Err(PrivilegeProblem(privilege.error)) else
    var placement := PlacementProblem(memory, RESERVED);
    if placement.Some? then Err(placement.value) else
    var duplicate := DuplicateProblem(RESERVED);
    if duplicate.Some? then Err(duplicate.value) else
    Ok(AddressSpaceLayout(privilege.value, memory))
  }

  /** The pages a list reserves are distinct. */
  predicate Distinct(pages: seq<(ReservedPage, u64)>) {
    forall i, j :: 0 <= i < j < |pages| ==> pages[i].1 != pages[j].1
  }

  lemma {:induction false} ClashExact(page: (ReservedPage, u64), pages: seq<(ReservedPage, u64)>)
    ensures ClashWith(page, pages).None? <==> forall i :: 0 <= i < |pages| ==> pages[i].1 != page.1
  {
    if pages != [] {
      ClashExact(page, pages[1..]);
      assert forall i :: 0 < i < |pages| ==> pages[i] == pages[1..][i - 1];
    }
  }

  /** The pairwise scan finds a duplicate exactly when there is one. */
  lemma {:induction false} DuplicateExact(pages: seq<(ReservedPage, u64)>)
    ensures DuplicateProblem(pages).None? <==> Distinct(pages)
  {
    if pages != [] {
      ClashExact(pages[0], pages[1..]);
      DuplicateExact(pages[1..]);
      assert forall i :: 0 <= i < |pages[1..]| ==> pages[1..][i] == pages[i + 1];
      if ClashWith(pages[0], pages[1..]).None? && Distinct(pages[1..]) {
        forall i, j | 0 <= i < j < |pages| ensures pages[i].1 != pages[j].1 {
          assert pages[j] == pages[1..][j - 1];
          if i > 0 { assert pages[i] == pages[1..][i - 1]; }
        }
      }
    }
  }

  lemma {:induction false} PlacementExact(memory: Region, pages: seq<(ReservedPage, u64)>)
    ensures PlacementProblem(memory, pages).None? <==>
            forall i :: 0 <= i < |pages| ==>
                          pages[i].1 % PAGE == 0 && memory.base <= pages[i].1 && pages[i].1 + PAGE <= memory.End()
  {
    if pages != [] {
      PlacementExact(memory, pages[1..]);
      assert forall i :: 0 < i < |pages| ==> pages[i] == pages[1..][i - 1];
    }
  }

  /** The reserved pages are well placed in any RAM the ring-3 layout accepts. */
  lemma NewAccepts(memory: Region)
    ensures New(memory).Ok? <==> memory.base == 0 && memory.size >= IDENTITY_MAP_SIZE
    ensures New(memory).Ok? ==> P.New(memory) == Ok(New(memory).value.privilege)
  {
    P.NewAccepts(memory);
    PlacementExact(memory, RESERVED);
    DuplicateExact(RESERVED);
  }

  // ---------------------------------------------------------------- the second root

  predicate IsUserVirtualPage(address: u64) {
    var page := AlignDownPage(address);
    page == AlignDownPage(P.USER_ENTRY) || page == USER_DATA_PAGE || page == AlignDownPage(P.USER_STACK - 1)
  }

  /** The frame behind each page of the second address space. */
  function Backing(page: u64): u64 {
    if page == USER_DATA_PAGE then B_USER_DATA_BACKING
    else if page == P.USER_ENTRY then B_USER_CODE_BACKING
    else if page == AlignDownPage(P.USER_STACK - 1) then B_USER_STACK_BACKING
    else page
  }

  function SecondEntry(index: nat): nat
    requires index < 512
  {
    Backing(index * PAGE) + P.LeafFlags(IsUserVirtualPage(index * PAGE))
  }

  function SecondEntries(count: nat): (es: seq<nat>)
    requires count <= 512
    ensures |es| == 512
  {
    seq(512, i requires 0 <= i < 512 => if i < count then SecondEntry(i) else 0)
  }

  function SecondMap(va: u64): Option<Translation> {
    if va < IDENTITY_MAP_SIZE then
      Some(Translation(Backing(va - va % PAGE) + va % PAGE, true, IsUserVirtualPage(va)))
    else None
  }

  lemma BackingIsPage(page: u64)
    requires page % PAGE == 0 && page < IDENTITY_MAP_SIZE
    ensures Backing(page) % PAGE == 0 && Backing(page) < IDENTITY_MAP_SIZE
  {
  }

  lemma SamePage(va: u64)
    ensures va / PAGE * PAGE == AlignDownPage(va) && IsUserVirtualPage(va / PAGE * PAGE) == IsUserVirtualPage(va)
  {
  }

  lemma SecondEntriesMap(va: u64)
    ensures LeafMap(SecondEntries(512), va) == SecondMap(va)
  {
    if va < IDENTITY_MAP_SIZE {
      var index := va / PAGE;
      SamePage(va);
      var page, user := Backing(index * PAGE), IsUserVirtualPage(va);
      assert SecondEntries(512)[index] == page + P.LeafFlags(user);
      BackingIsPage(index * PAGE);
      FrameOf(page, P.LeafFlags(user));
      P.LeafFlagsMean(user);
      hide IsUserVirtualPage; hide P.LeafFlags; hide Frame; hide Usable; hide Writable; hide User; hide SecondEntries;
      hide Backing;
    }
  }

  ghost predicate SecondRoot(ram: seq<u8>) {
    && TablePage(ram, B_PML4_ADDR, OnlyFirst(B_PDPT_ADDR + 7))
    && TablePage(ram, B_PDPT_ADDR, OnlyFirst(B_PD_ADDR + 7))
    && TablePage(ram, B_PD_ADDR, OnlyFirst(B_PT_ADDR + 7))
    && TablePage(ram, B_PT_ADDR, SecondEntries(512))
  }

  lemma SecondWalk(ram: seq<u8>, va: u64)
    requires SecondRoot(ram)
    ensures Walk(ram, B_PML4_ADDR, va) == SecondMap(va)
  {
    hide Walk; hide LeafMap; hide SecondMap;
    assert Frame(B_PML4_ADDR) == B_PML4_ADDR;
    LeafWalk(ram, B_PML4_ADDR, B_PDPT_ADDR, B_PD_ADDR, B_PT_ADDR, SecondEntries(512), va);
    SecondEntriesMap(va);
  }

  ghost predicate Installed(ram: seq<u8>) { P.Installed(ram) && SecondRoot(ram) }

  /** The user pages of the second space in the installed bytes, byte by byte: code at 0x11000 is
      backed by 0x20000, data at 0xa000 by 0x21000 and the stack page at 0x1fc000 by 0x22000. */
  lemma SecondUserPages(ram: seq<u8>, k: nat)
    requires SecondRoot(ram) && k < 0x1000
    ensures Walk(ram, 0xb000, 0x1_1000 + k) == Some(Translation(0x2_0000 + k, true, true))
    ensures Walk(ram, 0xb000, 0xa000 + k) == Some(Translation(0x2_1000 + k, true, true))
    ensures Walk(ram, 0xb000, 0x1f_c000 + k) == Some(Translation(0x2_2000 + k, true, true))
  {
    hide Walk;
    SecondWalk(ram, 0x1_1000 + k);
    SecondWalk(ram, 0xa000 + k);
    SecondWalk(ram, 0x1f_c000 + k);
  }

  /** Everywhere else the second space is the supervisor's view of the first. */
  lemma SecondSupervisorPages(ram: seq<u8>, va: u64)
    requires SecondRoot(ram) && va / 0x1000 != 0xa && va / 0x1000 != 0x11 && va / 0x1000 != 0x1fc
    ensures Walk(ram, 0xb000, va) == if va < 0x20_0000 then Some(Translation(va, true, false)) else None
  {
    hide Walk;
    SecondWalk(ram, va);
  }

  /** A page holding page tables of either root, or the GDT, IDT or TSS. */
  predicate IsTableAddress(physical: nat) {
    PML4_ADDR <= physical < P.TABLE_END || B_PML4_ADDR <= physical < CR3_OBSERVATION_ADDR
  }

  // ---------------------------------------------------------------- isolation

  /** The two spaces at one address: the same pages exist in both and are open to user mode in
      both; the supervisor sees one and the same memory, user mode never. */
  lemma SpacesAgree(va: u64)
    ensures P.PrivilegeMap(va).Some? <==> SecondMap(va).Some?
    ensures P.PrivilegeMap(va).Some? ==>
              && P.PrivilegeMap(va).value.user == SecondMap(va).value.user
              && (!SecondMap(va).value.user <==> P.PrivilegeMap(va) == SecondMap(va))
  {
  }

  /** No address either root opens to user mode reaches a page-table, GDT, IDT or TSS page. */
  lemma UserNeverReachesTables(va: u64)
    ensures P.PrivilegeMap(va).Some? && P.PrivilegeMap(va).value.user ==>
              !IsTableAddress(P.PrivilegeMap(va).value.physical)
    ensures SecondMap(va).Some? && SecondMap(va).value.user ==> !IsTableAddress(SecondMap(va).value.physical)
  {
    if va < IDENTITY_MAP_SIZE && P.IsUserPage(va) { P.UserReach(va); }
  }

  /** User memory of one space is disjoint from user memory of the other: no two addresses,
      one in each space, share a physical byte. */
  lemma UserFramesDisjoint(vaA: u64, vaB: u64)
    requires P.PrivilegeMap(vaA).Some? && P.PrivilegeMap(vaA).value.user
    requires SecondMap(vaB).Some? && SecondMap(vaB).value.user
    ensures P.PrivilegeMap(vaA).value.physical != SecondMap(vaB).value.physical
  {
    UserFrames(vaA, vaB);
  }

  lemma UserFrames(vaA: u64, vaB: u64)
    requires vaA < IDENTITY_MAP_SIZE && P.IsUserPage(vaA) && vaB < IDENTITY_MAP_SIZE && IsUserVirtualPage(vaB)
    ensures vaA < B_USER_CODE_BACKING || vaA >= B_USER_STACK_BACKING + PAGE
    ensures B_USER_CODE_BACKING <= SecondMap(vaB).value.physical < B_USER_STACK_BACKING + PAGE
  {
  }

  /** Within one space different user addresses never share a byte either. */
  lemma SecondUserInjective(va: u64, va': u64)
    requires SecondMap(va).Some? && SecondMap(va).value.user && SecondMap(va').Some? && SecondMap(va').value.user
    requires SecondMap(va).value.physical == SecondMap(va').value.physical
    ensures va == va'
  {
  }

  // ---------------------------------------------------------------- installing

  /** Both address spaces are installed; adding the second leaves every translation of the
      first as it was, and nothing outside the reserved pages changes. */
  method InstallTables(layout: AddressSpaceLayout, memory: GuestMemory) returns (r: Result<(), MemoryError>)
    requires memory.Valid() && New(memory.region) == Ok(layout)
    modifies memory.ram
    ensures r.Ok?
    ensures Installed(memory.Bytes())
    ensures forall va: u64 :: Walk(memory.Bytes(), A_CR3, va) == P.PrivilegeMap(va)
    ensures forall va: u64 :: Walk(memory.Bytes(), B_PML4_ADDR, va) == SecondMap(va)
    ensures forall va: u64 :: 0x1_1000 <= va < 0x1_2000 ==>
                                Walk(memory.Bytes(), 0xb000, va) == Some(Translation(va + 0xf000, true, true))
    ensures forall va: u64 :: 0xa000 <= va < 0xb000 ==>
                                Walk(memory.Bytes(), 0xb000, va) == Some(Translation(va + 0x1_7000, true, true))
    ensures forall va: u64 :: 0x1f_c000 <= va < 0x1f_d000 ==>
                                Walk(memory.Bytes(), 0xb000, va) == Some(Translation(va - 0x1d_a000, true, true))
    ensures forall j :: 0 <= j < memory.ram.Length
                        && !(PML4_ADDR <= j < P.TABLE_END || B_PML4_ADDR <= j < B_TABLES_END) ==>
                          memory.Bytes()[j] == old(memory.Bytes())[j]
  {
    NewAccepts(memory.region);
    r := P.InstallTables(layout.privilege, memory);
    ghost var first := memory.Bytes();
    r := ZeroPages(memory, B_PML4_ADDR, 5);
    ghost var cleared := memory.Bytes();
    ZeroPageIsEmptyTable(cleared, B_PML4_ADDR); ZeroPageIsEmptyTable(cleared, B_PDPT_ADDR);
    ZeroPageIsEmptyTable(cleared, B_PD_ADDR); ZeroPageIsEmptyTable(cleared, B_PT_ADDR);
    r := InstallSecondRoot(memory);
    FirstSpaceFrame(first, memory.Bytes());
    WalkBoth(memory.Bytes());
    SecondUserRanges(memory.Bytes());
  }

  lemma SecondUserRanges(ram: seq<u8>)
    requires SecondRoot(ram)
    ensures forall va: u64 :: 0x1_1000 <= va < 0x1_2000 ==>
                                Walk(ram, 0xb000, va) == Some(Translation(va + 0xf000, true, true))
    ensures forall va: u64 :: 0xa000 <= va < 0xb000 ==>
                                Walk(ram, 0xb000, va) == Some(Translation(va + 0x1_7000, true, true))
    ensures forall va: u64 :: 0x1f_c000 <= va < 0x1f_d000 ==>
                                Walk(ram, 0xb000, va) == Some(Translation(va - 0x1d_a000, true, true))
  {
    hide Walk; hide SecondRoot;
    forall va: u64 | 0x1_1000 <= va < 0x1_2000
      ensures Walk(ram, 0xb000, va) == Some(Translation(va + 0xf000, true, true))
    {
      SecondUserPages(ram, va - 0x1_1000);
    }
    forall va: u64 | 0xa000 <= va < 0xb000
      ensures Walk(ram, 0xb000, va) == Some(Translation(va + 0x1_7000, true, true))
    {
      SecondUserPages(ram, va - 0xa000);
    }
    forall va: u64 | 0x1f_c000 <= va < 0x1f_d000
      ensures Walk(ram, 0xb000, va) == Some(Translation(va - 0x1d_a000, true, true))
    {
      SecondUserPages(ram, va - 0x1f_c000);
    }
  }

  lemma WalkBoth(ram: seq<u8>)
    requires Installed(ram)
    ensures forall va: u64 :: Walk(ram, A_CR3, va) == P.PrivilegeMap(va)
    ensures forall va: u64 :: Walk(ram, B_PML4_ADDR, va) == SecondMap(va)
  {
    P.RootWalkAll(ram);
    forall va: u64 ensures Walk(ram, B_PML4_ADDR, va) == SecondMap(va) { SecondWalk(ram, va); }
  }

  /** The first space lives below the second's tables, so it survives their installation. */
  lemma FirstSpaceFrame(s: seq<u8>, t: seq<u8>)
    requires P.Installed(s) && SameOn(s, t, 0, B_PML4_ADDR)
    ensures P.Installed(t)
  {
    P.InstalledFrame(s, t);
  }

  method InstallSecondRoot(memory: GuestMemory) returns (r: Result<(), MemoryError>)
    requires memory.Valid() && memory.region.base == 0 && B_TABLES_END <= memory.ram.Length
    requires TablePage(memory.Bytes(), B_PML4_ADDR, NoEntries()) && TablePage(memory.Bytes(), B_PDPT_ADDR, NoEntries())
    requires TablePage(memory.Bytes(), B_PD_ADDR, NoEntries()) && TablePage(memory.Bytes(), B_PT_ADDR, NoEntries())
    modifies memory.ram
    ensures r.Ok?
    ensures SecondRoot(memory.Bytes())
    ensures SameOutside(old(memory.Bytes()), memory.Bytes(), B_PML4_ADDR, CR3_OBSERVATION_ADDR)
  {
    hide TablePage; hide NoEntries; hide Or;
    ghost var cleared := memory.Bytes();
    PageOr(B_PDPT_ADDR, 7); PageOr(B_PD_ADDR, 7); PageOr(B_PT_ADDR, 7);
    r := WriteEntry(memory, B_PML4_ADDR, 0, Or(B_PDPT_ADDR, 7), NoEntries());
    ghost var one := memory.Bytes();
    TablePageFrame(cleared, one, B_PDPT_ADDR, NoEntries());
    r := WriteEntry(memory, B_PDPT_ADDR, 0, Or(B_PD_ADDR, 7), NoEntries());
    ghost var two := memory.Bytes();
    TablePageFrame(cleared, two, B_PD_ADDR, NoEntries());
    r := WriteEntry(memory, B_PD_ADDR, 0, Or(B_PT_ADDR, 7), NoEntries());
    ghost var three := memory.Bytes();
    TablePageFrame(cleared, three, B_PT_ADDR, NoEntries());
    r := FillSecondTable(memory);
    TablePageFrame(one, memory.Bytes(), B_PML4_ADDR, OnlyFirst(B_PDPT_ADDR + 7));
    TablePageFrame(two, memory.Bytes(), B_PDPT_ADDR, OnlyFirst(B_PD_ADDR + 7));
    TablePageFrame(three, memory.Bytes(), B_PD_ADDR, OnlyFirst(B_PT_ADDR + 7));
  }

  method FillSecondTable(memory: GuestMemory) returns (r: Result<(), MemoryError>)
    requires memory.Valid() && memory.region.base == 0
    requires TablePage(memory.Bytes(), B_PT_ADDR, NoEntries())
    modifies memory.ram
    ensures r.Ok?
    ensures TablePage(memory.Bytes(), B_PT_ADDR, SecondEntries(512))
    ensures SameOutside(old(memory.Bytes()), memory.Bytes(), B_PT_ADDR, CR3_OBSERVATION_ADDR)
  {
    r := Ok(());
    assert SecondEntries(0) == NoEntries();
    for index := 0 to 512
      invariant r.Ok?
      invariant TablePage(memory.Bytes(), B_PT_ADDR, SecondEntries(index))
      invariant SameOutside(old(memory.Bytes()), memory.Bytes(), B_PT_ADDR, CR3_OBSERVATION_ADDR)
    {
      var virtualAddress := index * PAGE;
      var flags := P.LeafFlags(IsUserVirtualPage(virtualAddress));
      BackingIsPage(virtualAddress);
      PageOr(Backing(virtualAddress), flags);
      r := WriteEntry(memory, B_PT_ADDR, index, Or(Backing(virtualAddress), flags), SecondEntries(index));
      SecondEntriesStep(index);
    }
  }

  lemma SecondEntriesStep(index: nat)
    requires index < 512
    ensures SetEntry(SecondEntries(index), index, SecondEntry(index)) == SecondEntries(index + 1)
  {
    hide SecondEntry;
  }

  // ---------------------------------------------------------------- reading back

  /** Reads the slot of a virtual address in a leaf table, or fails where the slot is not RAM; the
      slot's address wraps at 2^64. For an address the table covers it is the entry the processor
      would use. */
  method ReadPte(memory: GuestMemory, table: u64, virtualAddress: u64) returns (r: Result<nat, MemoryError>)
    requires memory.Valid()
    ensures var at := (table + virtualAddress / PAGE * 8) % U64_LIMIT - memory.region.base;
            && (r.Ok? <==> 0 <= at && at + 8 <= memory.region.size)
            && (r.Ok? ==> r.value == U64At(memory.Bytes(), at))
            && (r.Ok? && memory.region.base == 0 && table + PAGE <= memory.region.size
                && virtualAddress < IDENTITY_MAP_SIZE ==>
                  r.value == EntryAt(memory.Bytes(), table, Index(virtualAddress, 1)))
  {
    var index := AlignDownPage(virtualAddress) / PAGE;
    assert index == virtualAddress / PAGE;
    var slot := (table + index * 8) % U64_LIMIT;
    var bytes :- memory.Read(slot, 8);
    ghost var at := slot - memory.region.base;
    assert bytes == memory.Bytes()[at..at + 8];
    assert virtualAddress < IDENTITY_MAP_SIZE ==> index == Index(virtualAddress, 1);
    return Ok(LeValue(bytes));
  }

  /** `validate_pte`: the address bits, the required rights and, for a supervisor page, the
      absence of the user bit. */
  predicate ValidPte(pte: nat, physical: u64, user: bool) {
    var required := if user then 7 else 3;
    And(pte, 0x000f_ffff_ffff_f000) == physical && And(pte, required) == required && (!user ==> And(pte, 4) == 0)
  }

  /** The mask test of `validate_pte` says about an entry what the processor reads in it: this
      frame, present, writable, and user-accessible exactly when asked. */
  lemma PteCheckIsHardware(pte: nat, physical: u64, user: bool)
    ensures ValidPte(pte, physical, user) <==>
            Frame(pte) == physical && Flags(pte) % 2 == 1 && Writable(pte) && User(pte) == user
  {
    hide And; hide Frame; hide Flags; hide Writable; hide User;
    PteAddressBits(pte);
    PteFlagBits(pte);
    ThreeBits(pte);
  }

  lemma ThreeBits(f: nat)
    ensures f % 8 == 7 <==> f % 2 == 1 && f % 4 >= 2 && f % 8 >= 4
    ensures f % 4 == 3 <==> f % 2 == 1 && f % 4 >= 2
    ensures f % 8 - f % 4 == 0 <==> f % 8 < 4
  {
    var h := f % 8;
    ModUnique(f, 4, 2 * (f / 8) + h / 4, h % 4);
    ModUnique(f, 2, 4 * (f / 8) + h / 2, h % 2);
  }

  lemma PteAddressBits(pte: nat)
    ensures And(pte, 0x000f_ffff_ffff_f000) == Frame(pte)
  {
    hide And; hide Low; hide Pow2;
    Pow2At12();
    Pow2At52();
    AndRange(pte, 52, 12);
    LowIsMod(pte, 52, 0x10_0000_0000_0000);
    LowIsMod(pte, 12, 4096);
    var q := pte / PAGE;
    var top := q / 0x100_0000_0000;
    assert pte == PAGE * q + pte % PAGE && q == 0x100_0000_0000 * top + q % 0x100_0000_0000;
    ModUnique(pte, 0x10_0000_0000_0000, top, PAGE * (q % 0x100_0000_0000) + pte % PAGE);
  }

  lemma Pow2At52()
    ensures Pow2(52) == 0x10_0000_0000_0000
  {
    WordSizes();
    assert Pow2(33) == 0x2_0000_0000 && Pow2(34) == 0x4_0000_0000 && Pow2(35) == 0x8_0000_0000;
    assert Pow2(36) == 0x10_0000_0000;
    Pow2Step8(4);
    assert Pow2(40) == 0x100_0000_0000;
    Pow2Step8(5);
    assert Pow2(48) == 0x1_0000_0000_0000;
    assert Pow2(50) == 4 * Pow2(48) && Pow2(52) == 4 * Pow2(50);
  }

  lemma PteFlagBits(pte: nat)
    ensures And(pte, 3) == pte % 4 && And(pte, 7) == pte % 8 && And(pte, 4) == pte % 8 - pte % 4
    ensures Flags(pte) % 2 == pte % 2
    ensures Writable(pte) <==> pte % 4 >= 2
    ensures User(pte) <==> pte % 8 >= 4
  {
    assert Low(pte, 0) == 0 && Pow2(0) == 1 && Pow2(1) == 2 && Pow2(2) == 4 && Pow2(3) == 8;
    hide And; hide Low; hide Pow2;
    AndRange(pte, 2, 0);
    AndRange(pte, 3, 0);
    AndRange(pte, 3, 2);
    LowIsMod(pte, 2, 4);
    LowIsMod(pte, 3, 8);
    LowBits(pte);
  }

  lemma LowBits(pte: nat)
    ensures Flags(pte) % 2 == pte % 2
    ensures Writable(pte) <==> pte % 4 >= 2
    ensures User(pte) <==> pte % 8 >= 4
  {
    var f, high := Flags(pte), pte / PAGE;
    assert pte == PAGE * high + f;
    ModUnique(pte, 8, 512 * high + f / 8, f % 8);
    ModUnique(pte, 4, 1024 * high + f / 4, f % 4);
    ModUnique(pte, 2, 2048 * high + f / 2, f % 2);
    SmallBits(f);
  }

  lemma SmallBits(f: nat)
    ensures f / 2 % 2 == 1 <==> f % 4 >= 2
    ensures f / 4 % 2 == 1 <==> f % 8 >= 4
  {
    var half, quarter := f / 2, f / 4;
    ModUnique(f, 4, half / 2, 2 * (half % 2) + f % 2);
    ModUnique(f, 8, quarter / 2, 4 * (quarter % 2) + f % 4);
  }

  /** Every leaf entry either root installs passes the read-back check for its own page. */
  lemma InstalledEntriesPass(index: nat)
    requires index < 512
    ensures ValidPte(P.LeafEntry(index), index * PAGE, P.IsUserPage(index * PAGE))
    ensures ValidPte(SecondEntry(index), Backing(index * PAGE), IsUserVirtualPage(index * PAGE))
  {
    BackingIsPage(index * PAGE);
    PtePasses(index * PAGE, P.IsUserPage(index * PAGE));
    PtePasses(Backing(index * PAGE), IsUserVirtualPage(index * PAGE));
  }

  lemma PtePasses(page: u64, user: bool)
    requires page % PAGE == 0 && page < IDENTITY_MAP_SIZE
    ensures ValidPte(page + P.LeafFlags(user), page, user)
  {
    hide And; hide Frame; hide ValidPte;
    FrameOf(page, P.LeafFlags(user));
    PteCheckIsHardware(page + P.LeafFlags(user), page, user);
  }
}
