/** Flat guest images: validation, loading, and what the guest fetches afterwards
    (src/loader.rs). */
module Loader {
  import opened Words
  import opened GuestRam
  import opened Paging
  import opened LongMode

  datatype ImageError =
    | EmptyFlatBinary
    | ImageRangeOverflow(loadAddress: u64, length: nat)
    | EntryOutsideImage(entry: u64, loadAddress: u64, length: nat)

  datatype FlatImage = FlatImage(loadAddress: u64, entry: u64, bytes: seq<u8>) {

    predicate Valid() {
      bytes != [] && loadAddress <= entry < loadAddress + |bytes| && loadAddress + |bytes| < U64_LIMIT
    }

    predicate Holds(physical: int) { loadAddress <= physical < loadAddress + |bytes| }
  }

  function NewImage(loadAddress: u64, entry: u64, bytes: seq<u8>): (r: Result<FlatImage, ImageError>)
    ensures r.Ok? <==> FlatImage(loadAddress, entry, bytes).Valid()
    ensures r.Ok? ==> r.value == FlatImage(loadAddress, entry, bytes)
  {
    if bytes == [] then Err(EmptyFlatBinary)
    else if loadAddress + |bytes| >= U64_LIMIT then Err(ImageRangeOverflow(loadAddress, |bytes|))
    else if entry < loadAddress || entry >= loadAddress + |bytes| then
      Err(EntryOutsideImage(entry, loadAddress, |bytes|))
    else Ok(FlatImage(loadAddress, entry, bytes))
  }

  /** Loads the image, or changes nothing when it does not fit the region. */
  method Load(image: FlatImage, memory: GuestMemory) returns (r: Result<(), MemoryError>)
    requires memory.Valid() && image.Valid()
    modifies memory.ram
    ensures r.Ok? <==>
            memory.region.base <= image.loadAddress && image.loadAddress + |image.bytes| <= memory.region.End()
    ensures r.Ok? ==> memory.Bytes() == Patch(old(memory.Bytes()), image.loadAddress - memory.region.base, image.bytes)
    ensures r.Err? ==> memory.Bytes() == old(memory.Bytes())
  {
    r := memory.Write(image.loadAddress, image.bytes);
  }

  /** An image that avoids the page tables disturbs no translation, and every address that
      translates into the image reads back the image's own byte. */
  lemma FetchReadsImage(ram: seq<u8>, mappings: seq<PageMapping>, image: FlatImage, va: u64)
    requires BootTables(ram, mappings) && image.Valid() && image.loadAddress + |image.bytes| <= |ram|
    requires !RangesOverlap(image.loadAddress, image.loadAddress + |image.bytes|, PML4_ADDR, PAGE_TABLE_END)
    ensures BootTables(Patch(ram, image.loadAddress, image.bytes), mappings)
    ensures Walk(Patch(ram, image.loadAddress, image.bytes), PML4_ADDR, va) == Walk(ram, PML4_ADDR, va)
    ensures Walk(ram, PML4_ADDR, va).Some? && image.Holds(Walk(ram, PML4_ADDR, va).value.physical) ==>
              var physical := Walk(ram, PML4_ADDR, va).value.physical;
              Patch(ram, image.loadAddress, image.bytes)[physical] == image.bytes[physical - image.loadAddress]
  {
    hide Walk;
    var loaded := Patch(ram, image.loadAddress, image.bytes);
    BootTranslationsFrame(ram, loaded, mappings);
  }

  /** Any accepted layout can start the guest in the image: the entry translates after loading,
      and the first fetch reads the image's byte wherever the entry reaches it, which it does at
      the image's own entry when that lies in the identity map. */
  lemma BootFetchesEntry(ram: seq<u8>, l: BootLayout, image: FlatImage)
    requires LongMode.Accepted(l) && BootTables(ram, l.mappings)
    requires image.Valid() && image.loadAddress + |image.bytes| <= |ram|
    requires !RangesOverlap(image.loadAddress, image.loadAddress + |image.bytes|, PML4_ADDR, PAGE_TABLE_END)
    ensures var loaded := Patch(ram, image.loadAddress, image.bytes);
            var fetch := Walk(loaded, PML4_ADDR, l.entry);
            && fetch.Some? && fetch == BootMap(l.mappings, l.entry)
            && (image.Holds(fetch.value.physical) ==>
                  loaded[fetch.value.physical] == image.bytes[fetch.value.physical - image.loadAddress])
            && (l.entry == image.entry && l.entry < IDENTITY_MAP_SIZE ==>
                  fetch.value.physical == l.entry && image.Holds(l.entry))
  {
    hide Walk;
    EntryTranslates(l);
    FetchReadsImage(ram, l.mappings, image, l.entry);
    BootWalk(ram, l.mappings, l.entry);
  }
}
