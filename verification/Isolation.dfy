/** User-mode code at work in the two installed address spaces: whatever both store, in whatever
    order, and whatever accessed and dirty bits the processor sets on the way. */
module Isolation {
  import opened Words
  import opened GuestRam
  import opened Paging
  import opened LongMode
  import opened Loader
  import P = Privilege
  import opened AddressSpaces

  function RootOf(second: bool): u64 {
    if second then B_PML4_ADDR else A_CR3
  }

  /** A byte stored by user-mode code of one of the two spaces. */
  datatype UserStore = UserStore(second: bool, va: u64, value: u8)

  /** The physical byte user-mode code of a space may write at an address. */
  ghost function UserTarget(ram: seq<u8>, second: bool, va: u64): Option<nat> {
    var t := Walk(ram, RootOf(second), va);
    if t.Some? && t.value.user && t.value.writable && t.value.physical < |ram| then Some(t.value.physical) else None
  }

  /** RAM after the store: a store the tables do not allow faults and changes nothing. */
  ghost function Store(ram: seq<u8>, s: UserStore): seq<u8> {
    var target := UserTarget(ram, s.second, s.va);
    if target.Some? then ram[target.value := s.value] else ram
  }

  ghost function Stores(ram: seq<u8>, stores: seq<UserStore>): seq<u8> {
    if stores == [] then ram else Store(Stores(ram, stores[..|stores| - 1]), stores[|stores| - 1])
  }

  /** A byte user mode may write in one space is neither part of a table nor user memory of the
      other space. */
  lemma UserTargetIsolated(ram: seq<u8>, second: bool, va: u64, other: u64)
    requires Installed(ram) && UserTarget(ram, second, va).Some?
    ensures !IsTableAddress(UserTarget(ram, second, va).value)
    ensures UserTarget(ram, !second, other) != UserTarget(ram, second, va)
  {
    hide Walk;
    WalkBoth(ram);
    UserNeverReachesTables(va);
    var here, there := Walk(ram, RootOf(second), va), Walk(ram, RootOf(!second), other);
    if there.Some? && there.value.user {
      if second { UserFramesDisjoint(other, va); } else { UserFramesDisjoint(va, other); }
    }
  }

  /** Memory that agrees on every table page holds the same two spaces. */
  lemma InstalledFrame(s: seq<u8>, t: seq<u8>)
    requires Installed(s) && SameOn(s, t, PML4_ADDR, P.TABLE_END) && SameOn(s, t, B_PML4_ADDR, CR3_OBSERVATION_ADDR)
    ensures Installed(t)
  {
    P.InstalledFrame(s, t);
    hide P.Installed;
    TablePageFrame(s, t, B_PML4_ADDR, OnlyFirst(B_PDPT_ADDR + 7));
    TablePageFrame(s, t, B_PDPT_ADDR, OnlyFirst(B_PD_ADDR + 7));
    TablePageFrame(s, t, B_PD_ADDR, OnlyFirst(B_PT_ADDR + 7));
    TablePageFrame(s, t, B_PT_ADDR, SecondEntries(512));
  }

  lemma StoreKeepsSpaces(ram: seq<u8>, s: UserStore)
    requires Installed(ram)
    ensures |Store(ram, s)| == |ram| && Installed(Store(ram, s))
  {
    hide Walk; hide P.Installed; hide SecondRoot;
    var target := UserTarget(ram, s.second, s.va);
    if target.Some? {
      UserTargetIsolated(ram, s.second, s.va, 0);
      InstalledFrame(ram, Store(ram, s));
    }
  }

  /** Whatever user-mode code of both spaces stores, in any order: both spaces stay installed, so
      every translation, gate and descriptor is what it was. */
  lemma {:induction false} StoresKeepSpaces(ram: seq<u8>, stores: seq<UserStore>)
    requires Installed(ram)
    ensures |Stores(ram, stores)| == |ram| && Installed(Stores(ram, stores))
    ensures forall va: u64, second: bool ::
              Walk(Stores(ram, stores), RootOf(second), va) == Walk(ram, RootOf(second), va)
  {
    hide Walk; hide P.Installed; hide SecondRoot; hide Store;
    if stores != [] {
      StoresKeepSpaces(ram, stores[..|stores| - 1]);
      StoreKeepsSpaces(Stores(ram, stores[..|stores| - 1]), stores[|stores| - 1]);
    }
    WalkBoth(ram);
    WalkBoth(Stores(ram, stores));
  }

  // ---------------------------------------------------------------- the two guests' own memory

  /** The byte a root gives a reader at an address. */
  ghost function Fetched(ram: seq<u8>, cr3: u64, va: u64): Option<u8> {
    var t := Walk(ram, cr3, va);
    if t.Some? && t.value.physical < |ram| then Some(ram[t.value.physical]) else None
  }

  /** Loading anything clear of the tables keeps both spaces. */
  lemma LoadKeepsSpaces(ram: seq<u8>, at: nat, bytes: seq<u8>)
    requires Installed(ram) && at + |bytes| <= |ram|
    requires (P.TABLE_END <= at && at + |bytes| <= B_PML4_ADDR) || B_TABLES_END <= at
    ensures Installed(Patch(ram, at, bytes))
  {
    InstalledFrame(ram, Patch(ram, at, bytes));
  }

  /** Each space fetches its own code at 0x11000: the second the image loaded at 0x20000, the first
      the one loaded at 0x11000. */
  lemma CodeFetches(ram: seq<u8>, k: nat)
    requires Installed(ram) && k < 0x1000 && 0x2_1000 <= |ram|
    ensures Fetched(ram, 0x1000, 0x1_1000 + k) == Some(ram[0x1_1000 + k])
    ensures Fetched(ram, 0xb000, 0x1_1000 + k) == Some(ram[0x2_0000 + k])
  {
    hide Walk; hide P.DescriptorsHold; hide P.RootTables; hide SecondRoot;
    P.WalkExact(ram, 0x1_1000 + k);
    SecondUserPages(ram, k);
  }

  /** The second space's stores at 0xa000 land in the page at 0x21000 and nowhere else; the first
      space's land in the page at 0xa000. */
  lemma DataStores(ram: seq<u8>, k: nat, value: u8)
    requires Installed(ram) && k < 0x1000 && 0x2_2000 <= |ram|
    ensures Store(ram, UserStore(true, 0xa000 + k, value)) == ram[0x2_1000 + k := value]
    ensures Store(ram, UserStore(false, 0xa000 + k, value)) == ram[0xa000 + k := value]
  {
    hide Walk; hide P.DescriptorsHold; hide P.RootTables; hide SecondRoot;
    P.WalkExact(ram, 0xa000 + k);
    SecondUserPages(ram, k);
  }

  /** Likewise the stack page at 0x1fc000, backed by 0x22000 in the second space. */
  lemma StackStores(ram: seq<u8>, k: nat, value: u8)
    requires Installed(ram) && k < 0x1000 && 0x1f_d000 <= |ram|
    ensures Store(ram, UserStore(true, 0x1f_c000 + k, value)) == ram[0x2_2000 + k := value]
    ensures Store(ram, UserStore(false, 0x1f_c000 + k, value)) == ram[0x1f_c000 + k := value]
  {
    hide Walk; hide P.DescriptorsHold; hide P.RootTables; hide SecondRoot;
    P.WalkExact(ram, 0x1f_c000 + k);
    SecondUserPages(ram, k);
  }

  /** One page of guest code, loaded at the address it is entered at. */
  predicate CodePage(image: FlatImage, at: u64) {
    image.Valid() && image.loadAddress == image.entry == at && |image.bytes| <= PAGE
  }

  /** `run_address_space_switch_guest` up to memory registration: the tables, then the five images,
      then a zero in each space's data page. Both spaces then run their own code at the same
      address, share the kernel's, and start with a zero byte of data. */
  method PrepareSpaces(layout: AddressSpaceLayout, kernel: FlatImage, firstUser: FlatImage, secondUser: FlatImage,
                       switchHandler: FlatImage, terminalHandler: FlatImage, memory: GuestMemory)
    returns (r: Result<(), MemoryError>)
    requires memory.Valid() && New(memory.region) == Ok(layout)
    requires CodePage(kernel, P.KERNEL_ENTRY) && CodePage(firstUser, P.USER_ENTRY)
    requires CodePage(secondUser, B_USER_CODE_BACKING)
    requires CodePage(switchHandler, P.RETURN_HANDLER) && CodePage(terminalHandler, P.TERMINAL_HANDLER)
    modifies memory.ram
    ensures r.Ok?
    ensures Installed(memory.Bytes())
    ensures forall k :: 0 <= k < |firstUser.bytes| ==>
                          Fetched(memory.Bytes(), 0x1000, 0x1_1000 + k) == Some(firstUser.bytes[k])
    ensures forall k :: 0 <= k < |secondUser.bytes| ==>
                          Fetched(memory.Bytes(), 0xb000, 0x1_1000 + k) == Some(secondUser.bytes[k])
    ensures forall k :: 0 <= k < |kernel.bytes| ==> memory.Bytes()[0x1_0000 + k] == kernel.bytes[k]
    ensures forall k :: 0 <= k < |switchHandler.bytes| ==> memory.Bytes()[0x1_5000 + k] == switchHandler.bytes[k]
    ensures forall k :: 0 <= k < |terminalHandler.bytes| ==> memory.Bytes()[0x1_3000 + k] == terminalHandler.bytes[k]
    ensures Fetched(memory.Bytes(), 0x1000, 0xa000) == Fetched(memory.Bytes(), 0xb000, 0xa000) == Some(0)
  {
    hide Walk; hide P.DescriptorsHold; hide P.RootTables; hide SecondRoot; hide Patch;
    NewAccepts(memory.region);
    r := InstallTables(layout, memory);
    r := LoadPage(kernel, P.KERNEL_ENTRY, memory);
    r := LoadPage(firstUser, P.USER_ENTRY, memory);
    r := LoadPage(secondUser, B_USER_CODE_BACKING, memory);
    r := LoadPage(switchHandler, P.RETURN_HANDLER, memory);
    r := LoadPage(terminalHandler, P.TERMINAL_HANDLER, memory);
    r := ZeroData(memory, USER_DATA_PAGE);
    r := ZeroData(memory, B_USER_DATA_BACKING);
    FirstFetches(memory.Bytes(), firstUser.bytes, secondUser.bytes);
  }

  method LoadPage(image: FlatImage, at: u64, memory: GuestMemory) returns (r: Result<(), MemoryError>)
    requires memory.Valid() && memory.region.base == 0 && Installed(memory.Bytes())
    requires CodePage(image, at) && B_TABLES_END <= at && at + PAGE <= memory.ram.Length
    modifies memory.ram
    ensures r.Ok? && Installed(memory.Bytes())
    ensures forall k :: 0 <= k < |image.bytes| ==> memory.Bytes()[at + k] == image.bytes[k]
    ensures SameOutside(old(memory.Bytes()), memory.Bytes(), at, at + PAGE)
  {
    hide Installed;
    LoadKeepsSpaces(memory.Bytes(), at, image.bytes);
    r := Load(image, memory);
  }

  method ZeroData(memory: GuestMemory, at: u64) returns (r: Result<(), MemoryError>)
    requires memory.Valid() && memory.region.base == 0 && Installed(memory.Bytes())
    requires (P.TABLE_END <= at < B_PML4_ADDR || B_TABLES_END <= at) && at < memory.ram.Length
    modifies memory.ram
    ensures r.Ok? && Installed(memory.Bytes())
    ensures memory.Bytes() == old(memory.Bytes())[at := 0]
  {
    hide Installed;
    LoadKeepsSpaces(memory.Bytes(), at, [0]);
    r := memory.Write(at, [0]);
  }

  lemma FirstFetches(ram: seq<u8>, first: seq<u8>, second: seq<u8>)
    requires Installed(ram) && 0x2_2000 <= |ram| && |first| <= PAGE && |second| <= PAGE
    requires forall k :: 0 <= k < |first| ==> ram[0x1_1000 + k] == first[k]
    requires forall k :: 0 <= k < |second| ==> ram[0x2_0000 + k] == second[k]
    requires ram[0xa000] == ram[0x2_1000] == 0
    ensures forall k :: 0 <= k < |first| ==> Fetched(ram, 0x1000, 0x1_1000 + k) == Some(first[k])
    ensures forall k :: 0 <= k < |second| ==> Fetched(ram, 0xb000, 0x1_1000 + k) == Some(second[k])
    ensures Fetched(ram, 0x1000, 0xa000) == Fetched(ram, 0xb000, 0xa000) == Some(0)
  {
    hide Walk; hide Installed;
    forall k | 0 <= k < |first| ensures Fetched(ram, 0x1000, 0x1_1000 + k) == Some(first[k]) { CodeFetches(ram, k); }
    forall k | 0 <= k < |second| ensures Fetched(ram, 0xb000, 0x1_1000 + k) == Some(second[k]) { CodeFetches(ram, k); }
    DataFetches(ram);
  }

  lemma DataFetches(ram: seq<u8>)
    requires Installed(ram) && 0x2_2000 <= |ram|
    ensures Fetched(ram, 0x1000, 0xa000) == Some(ram[0xa000]) && Fetched(ram, 0xb000, 0xa000) == Some(ram[0x2_1000])
  {
    hide Walk; hide P.DescriptorsHold; hide P.RootTables; hide SecondRoot;
    P.WalkExact(ram, 0xa000);
    SecondUserPages(ram, 0);
  }

  // ---------------------------------------------------------------- noninterference

  /** The stores of one space, in order. */
  ghost function Own(stores: seq<UserStore>, second: bool): seq<UserStore> {
    if stores == [] then []
    else
      var last := stores[|stores| - 1];
      Own(stores[..|stores| - 1], second) + if last.second == second then [last] else []
  }

  lemma StoresAppend(ram: seq<u8>, stores: seq<UserStore>, last: UserStore)
    ensures Stores(ram, stores + [last]) == Store(Stores(ram, stores), last)
  {
    assert (stores + [last])[..|stores|] == stores;
  }

  /** What user mode may write stays what it was at the start. */
  lemma TargetKept(ram: seq<u8>, stores: seq<UserStore>, second: bool, va: u64)
    requires Installed(ram)
    ensures UserTarget(Stores(ram, stores), second, va) == UserTarget(ram, second, va)
    ensures |Stores(ram, stores)| == |ram| && Installed(Stores(ram, stores))
  {
    hide Walk; hide P.Installed; hide SecondRoot; hide Stores;
    StoresKeepSpaces(ram, stores);
  }

  /** Noninterference: whatever both spaces store, interleaved in any way, each byte a space can
      reach holds what that space's own stores alone would have left there. */
  lemma {:induction false} SpacesDoNotInterfere(ram: seq<u8>, stores: seq<UserStore>, second: bool, va: u64)
    requires Installed(ram) && UserTarget(ram, second, va).Some?
    ensures |Stores(ram, stores)| == |Stores(ram, Own(stores, second))| == |ram|
    ensures var byte := UserTarget(ram, second, va).value;
            Stores(ram, stores)[byte] == Stores(ram, Own(stores, second))[byte]
  {
    hide Walk; hide P.Installed; hide SecondRoot;
    TargetKept(ram, stores, second, va);
    TargetKept(ram, Own(stores, second), second, va);
    if stores != [] {
      var earlier, last := stores[..|stores| - 1], stores[|stores| - 1];
      SpacesDoNotInterfere(ram, earlier, second, va);
      TargetKept(ram, earlier, second, va);
      TargetKept(ram, earlier, last.second, last.va);
      if last.second == second {
        StoresAppend(ram, Own(earlier, second), last);
        TargetKept(ram, Own(earlier, second), second, last.va);
      } else {
        assert last.second == !second && Own(stores, second) == Own(earlier, second);
        UserTargetIsolated(Stores(ram, earlier), second, va, last.va);
      }
    }
  }

  // ---------------------------------------------------------------- accessed and dirty bits

  /** The page tables of both roots, without the descriptor pages. */
  predicate InPageTables(physical: nat) {
    PML4_ADDR <= physical < PAGE_TABLE_END || P.PT_ADDR <= physical < P.TABLE_END
    || B_PML4_ADDR <= physical < CR3_OBSERVATION_ADDR
  }

  /** A user-mode store, or the processor giving any page-table entry of either root any accessed
      and dirty bits. */
  datatype UserAction = Put(store: UserStore) | Mark(slot: nat, value: u64)

  ghost predicate CanMark(ram: seq<u8>, slot: nat, value: u64) {
    slot % 8 == 0 && InPageTables(slot) && slot + 8 <= |ram| && Unmarked(value) == Unmarked(U64At(ram, slot))
  }

  ghost function Act(ram: seq<u8>, a: UserAction): seq<u8> {
    match a
    case Put(store) => Store(ram, store)
    case Mark(slot, value) => if CanMark(ram, slot, value) then Patch(ram, slot, LeBytes(value, 8)) else ram
  }

  ghost function Acts(ram: seq<u8>, actions: seq<UserAction>): seq<u8> {
    if actions == [] then ram else Act(Acts(ram, actions[..|actions| - 1]), actions[|actions| - 1])
  }

  ghost function Puts(actions: seq<UserAction>): seq<UserStore> {
    if actions == [] then []
    else
      var last := actions[|actions| - 1];
      Puts(actions[..|actions| - 1]) + if last.Put? then [last.store] else []
  }

  /** `actual` is `ideal` but for marks in the page tables. */
  ghost predicate Simulates(ideal: seq<u8>, actual: seq<u8>) {
    UpToMarks(ideal, actual) && forall j :: 0 <= j < |ideal| && !InPageTables(j) ==> actual[j] == ideal[j]
  }

  lemma MarkSimulates(ideal: seq<u8>, actual: seq<u8>, slot: nat, value: u64)
    requires Simulates(ideal, actual) && CanMark(actual, slot, value)
    ensures Simulates(ideal, Patch(actual, slot, LeBytes(value, 8)))
  {
    hide Unmarked; hide LeBytes;
    var marked := Patch(actual, slot, LeBytes(value, 8));
    U64Written(actual, slot, value);
    U64Frame(actual, marked, slot, slot + 8);
    forall p: nat | p % 8 == 0 && p + 8 <= |ideal|
      ensures Unmarked(U64At(ideal, p)) == Unmarked(U64At(marked, p))
    {
      assert p == slot || p + 8 <= slot || slot + 8 <= p;
      assert Unmarked(U64At(ideal, p)) == Unmarked(U64At(actual, p));
    }
  }

  /** A word around a byte outside the page tables lies outside them as a whole. */
  lemma WordOutside(p: nat, byte: nat)
    requires p % 8 == 0 && p <= byte < p + 8 && !InPageTables(byte)
    ensures forall j :: p <= j < p + 8 ==> !InPageTables(j)
  {
  }

  lemma WriteSimulates(ideal: seq<u8>, actual: seq<u8>, byte: nat, value: u8)
    requires Simulates(ideal, actual) && byte < |ideal| && !InPageTables(byte)
    ensures Simulates(ideal[byte := value], actual[byte := value])
  {
    hide Unmarked;
    var ideal', actual' := ideal[byte := value], actual[byte := value];
    forall p: nat | p % 8 == 0 && p + 8 <= |ideal|
      ensures Unmarked(U64At(ideal', p)) == Unmarked(U64At(actual', p))
    {
      if p <= byte < p + 8 {
        WordOutside(p, byte);
        assert ideal'[p..p + 8] == actual'[p..p + 8];
      } else {
        assert ideal'[p..p + 8] == ideal[p..p + 8] && actual'[p..p + 8] == actual[p..p + 8];
        assert Unmarked(U64At(ideal, p)) == Unmarked(U64At(actual, p));
      }
    }
  }

  lemma StoreSimulates(ideal: seq<u8>, actual: seq<u8>, s: UserStore)
    requires Installed(ideal) && Simulates(ideal, actual)
    ensures Simulates(Store(ideal, s), Store(actual, s))
  {
    hide Walk; hide P.Installed; hide SecondRoot; hide UpToMarks;
    WalkUpToMarks(ideal, actual, RootOf(s.second), s.va);
    assert |ideal| == |actual| by { SameLength(ideal, actual); }
    var target := UserTarget(ideal, s.second, s.va);
    if target.Some? {
      UserTargetIsolated(ideal, s.second, s.va, 0);
      WriteSimulates(ideal, actual, target.value, s.value);
    }
  }

  lemma SameLength(ideal: seq<u8>, actual: seq<u8>)
    requires UpToMarks(ideal, actual)
    ensures |ideal| == |actual|
  {
  }

  /** Stores interleaved with marks leave, but for the marks, what the stores alone leave. */
  lemma {:induction false} MarkedRunSimulates(ram: seq<u8>, actions: seq<UserAction>)
    requires Installed(ram)
    ensures Simulates(Stores(ram, Puts(actions)), Acts(ram, actions))
  {
    hide Installed; hide UserTarget; hide Unmarked; hide Store; hide CanMark; hide Simulates;
    if actions == [] {
      assert Simulates(ram, ram) by { SimulatesItself(ram); }
    } else {
      var earlier, last := actions[..|actions| - 1], actions[|actions| - 1];
      MarkedRunSimulates(ram, earlier);
      var ideal, actual := Stores(ram, Puts(earlier)), Acts(ram, earlier);
      match last
      case Put(store) =>
        StoresKeepSpaces(ram, Puts(earlier));
        StoreSimulates(ideal, actual, store);
        StoresAppend(ram, Puts(earlier), store);
      case Mark(slot, value) =>
        assert Puts(actions) == Puts(earlier);
        if CanMark(actual, slot, value) { MarkSimulates(ideal, actual, slot, value); }
    }
  }

  lemma SimulatesItself(ram: seq<u8>)
    ensures Simulates(ram, ram)
  {
  }

  /** With marks as without: after any run of user-mode stores and marks, both roots translate
      every address as at the start and all descriptors and gates hold. */
  lemma MarkedRunKeepsSpaces(ram: seq<u8>, actions: seq<UserAction>)
    requires Installed(ram)
    ensures |Acts(ram, actions)| == |ram|
    ensures forall va: u64, second: bool ::
              Walk(Acts(ram, actions), RootOf(second), va) == Walk(ram, RootOf(second), va)
    ensures P.DescriptorsHold(Acts(ram, actions))
  {
    hide Walk; hide UpToMarks; hide P.DescriptorsHold; hide SecondRoot; hide P.RootTables; hide Stores; hide Acts;
    hide Puts;
    MarkedRunSimulates(ram, actions);
    StoresKeepSpaces(ram, Puts(actions));
    var ideal, actual := Stores(ram, Puts(actions)), Acts(ram, actions);
    SameLength(ideal, actual);
    forall va: u64, second: bool ensures Walk(actual, RootOf(second), va) == Walk(ram, RootOf(second), va) {
      WalkUpToMarks(ideal, actual, RootOf(second), va);
    }
    P.DescriptorsFrame(ideal, actual);
  }

  /** And noninterference: each byte a space can reach holds what its own stores alone, without
      any marks, would have left there. */
  lemma MarkedRunIsolates(ram: seq<u8>, actions: seq<UserAction>, second: bool, va: u64)
    requires Installed(ram) && UserTarget(ram, second, va).Some?
    ensures |Acts(ram, actions)| == |Stores(ram, Own(Puts(actions), second))| == |ram|
    ensures var byte := UserTarget(ram, second, va).value;
            Acts(ram, actions)[byte] == Stores(ram, Own(Puts(actions), second))[byte]
  {
    hide Installed; hide Walk; hide UpToMarks; hide Stores; hide Acts; hide Puts; hide Own;
    MarkedRunSimulates(ram, actions);
    SpacesDoNotInterfere(ram, Puts(actions), second, va);
    UserTargetIsolated(ram, second, va, 0);
    SameLength(Stores(ram, Puts(actions)), Acts(ram, actions));
  }

  /** Every leaf entry of both roots still passes the read-back check for its own page. */
  lemma MarkedEntriesPass(ram: seq<u8>, actions: seq<UserAction>, index: nat)
    requires Installed(ram) && index < 512
    ensures ValidPte(EntryAt(Acts(ram, actions), P.PT_ADDR, index), index * PAGE, P.IsUserPage(index * PAGE))
    ensures ValidPte(EntryAt(Acts(ram, actions), B_PT_ADDR, index), Backing(index * PAGE),
                     IsUserVirtualPage(index * PAGE))
  {
    hide ValidPte; hide Unmarked; hide Stores; hide Acts; hide Puts; hide EntryAt; hide UpToMarks;
    hide P.DescriptorsHold;
    MarkedRunSimulates(ram, actions);
    StoresKeepSpaces(ram, Puts(actions));
    var ideal, actual := Stores(ram, Puts(actions)), Acts(ram, actions);
    assert EntryAt(ideal, P.PT_ADDR, index) == P.LeafEntry(index);
    assert EntryAt(ideal, B_PT_ADDR, index) == SecondEntry(index);
    InstalledEntriesPass(index);
    EntryUpToMarks(ideal, actual, P.PT_ADDR, index);
    EntryUpToMarks(ideal, actual, B_PT_ADDR, index);
    CheckIgnoresMarks(P.LeafEntry(index), EntryAt(actual, P.PT_ADDR, index), index * PAGE, P.IsUserPage(index * PAGE));
    BackingIsPage(index * PAGE);
    CheckIgnoresMarks(SecondEntry(index), EntryAt(actual, B_PT_ADDR, index), Backing(index * PAGE),
                      IsUserVirtualPage(index * PAGE));
  }

  lemma CheckIgnoresMarks(e: nat, f: nat, physical: u64, user: bool)
    requires Unmarked(e) == Unmarked(f) && ValidPte(e, physical, user)
    ensures ValidPte(f, physical, user)
  {
    hide ValidPte; hide Unmarked;
    PteCheckIsHardware(e, physical, user);
    PteCheckIsHardware(f, physical, user);
    UnmarkedFields(e, f);
  }
}
