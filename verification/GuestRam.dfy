/** Guest physical memory: one validated region backed by a host byte array, with
    bounds-checked reads and writes (src/memory.rs). */
module GuestRam {
  import opened Words

  const KVM_MEMORY_ALIGNMENT: u64 := 4096

  datatype MemoryError =
    | ZeroSizedRegion
    | MisalignedBase(value: u64)
    | MisalignedSize(value: u64)
    | AddressSpaceOverflow(base: u64, size: u64)
    | AccessOverflow(address: u64, length: nat)
    | AccessOutOfBounds(address: u64, length: nat, region: Region)

  datatype Region = Region(base: u64, size: u64) {

    /** What construction through `NewRegion` guarantees. */
    predicate Valid() {
      size > 0 && base % KVM_MEMORY_ALIGNMENT == 0 && size % KVM_MEMORY_ALIGNMENT == 0
      && base + size < U64_LIMIT
    }

    function End(): int { base + size }

    predicate Contains(address: int) { base <= address < End() }

    predicate Overlaps(other: Region) { base < other.End() && other.base < End() }

    /** The host offset of an access, or why it is refused. The comparisons are those of
        the source; the postcondition is what they amount to. */
    function CheckedOffset(address: u64, length: nat): (r: Result<nat, MemoryError>)
      requires Valid()
      ensures r.Ok? <==> base <= address && address + length <= End()
      ensures r.Ok? ==> r.value == address - base && r.value + length <= size
      ensures r.Err? ==>
                r.error == if address + length >= U64_LIMIT then AccessOverflow(address, length)
                           else AccessOutOfBounds(address, length, this)
    {
      if address + length >= U64_LIMIT then Err(AccessOverflow(address, length))
      else if address < base || address + length > End() || (length != 0 && address >= End()) then
        Err(AccessOutOfBounds(address, length, this))
      else Ok(address - base)
    }
  }

  function NewRegion(base: u64, size: u64): (r: Result<Region, MemoryError>)
    ensures r.Ok? <==> Region(base, size).Valid()
    ensures r.Ok? ==> r.value == Region(base, size)
  {
    if size == 0 then Err(ZeroSizedRegion)
    else if base % KVM_MEMORY_ALIGNMENT != 0 then Err(MisalignedBase(base))
    else if size % KVM_MEMORY_ALIGNMENT != 0 then Err(MisalignedSize(size))
    else if base + size >= U64_LIMIT then Err(AddressSpaceOverflow(base, size))
    else Ok(Region(base, size))
  }

  /** Two valid regions overlap exactly when some address lies in both. */
  lemma OverlapIsSharedAddress(a: Region, b: Region)
    requires a.Valid() && b.Valid()
    ensures a.Overlaps(b) <==> exists x: int :: a.Contains(x) && b.Contains(x)
  {
    if a.Overlaps(b) {
      var x := if a.base < b.base then b.base else a.base;
      assert a.Contains(x) && b.Contains(x);
    }
  }

  class GuestMemory {
    const region: Region
    const ram: array<u8>

    ghost predicate Valid()
      reads this
    {
      region.Valid() && ram.Length == region.size
    }

    /** The contents of the mapping, indexed from the region base. */
    ghost function Bytes(): (s: seq<u8>)
      reads this, ram
      ensures |s| == ram.Length
    {
      ram[..]
    }

    /** An anonymous private mapping: zero-filled. */
    constructor (region: Region)
      requires region.Valid()
      ensures Valid() && this.region == region && fresh(ram)
      ensures Bytes() == seq(region.size, _ => 0)
    {
      this.region := region;
      this.ram := new u8[region.size](_ => 0);
    }

    method Read(address: u64, length: nat) returns (r: Result<seq<u8>, MemoryError>)
      requires Valid()
      ensures r.Ok? <==> region.base <= address && address + length <= region.End()
      ensures r.Ok? ==> r.value == Bytes()[address - region.base..][..length]
      ensures r.Err? ==> region.CheckedOffset(address, length) == Err(r.error)
    {
      match region.CheckedOffset(address, length)
      case Err(e) => r := Err(e);
      case Ok(offset) =>
        r := Ok(ram[offset..offset + length]);
        assert r.value == Bytes()[offset..][..length];
    }

    method Write(address: u64, source: seq<u8>) returns (r: Result<(), MemoryError>)
      requires Valid()
      modifies ram
      ensures r.Ok? <==> region.base <= address && address + |source| <= region.End()
      ensures r.Ok? ==> Bytes() == Patch(old(Bytes()), address - region.base, source)
      ensures r.Err? ==> Bytes() == old(Bytes()) && region.CheckedOffset(address, |source|) == Err(r.error)
    {
      match region.CheckedOffset(address, |source|)
      case Err(e) => r := Err(e);
      case Ok(offset) =>
        forall i | 0 <= i < |source| { ram[offset + i] := source[i]; }
        r := Ok(());
    }
  }
}
