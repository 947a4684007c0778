/** Validated doorbell/interrupt registrations and their canonical pair. */
module HostRegistration {
  import opened Words

  datatype SpecError = UnsupportedLength | DatamatchTooWide | RangeOverflow

  /** An ioeventfd doorbell (address, width, matched value) and the interrupt it raises. */
  datatype Spec = Spec(address: u64, length: u32, datamatch: u64, gsi: u32) {

    ghost predicate Valid() {
      && length in {1, 2, 4, 8}
      && datamatch < Pow2(8 * length)
      && address + length < U64_LIMIT
    }

    /** The doorbell covers this guest address. */
    ghost predicate Covers(a: nat) {
      address <= a < address + length
    }
  }

  function NewSpec(address: u64, length: u32, datamatch: u64, gsi: u32): Result<Spec, SpecError> {
    if length != 1 && length != 2 && length != 4 && length != 8 then Err(UnsupportedLength)
    else if 8 * length < 64 && datamatch >= Pow2(8 * length) then Err(DatamatchTooWide)
    else if address + length >= U64_LIMIT then Err(RangeOverflow)
    else Ok(Spec(address, length, datamatch, gsi))
  }

  /** A descriptor is accepted exactly when its width is one KVM can match, some guest write of
      that width carries the matched value, and the doorbell's end is a 64-bit address. */
  lemma NewSpecExact(address: u64, length: u32, datamatch: u64, gsi: u32)
    ensures var r := NewSpec(address, length, datamatch, gsi);
            && (r.Ok? <==>
                 && length in {1, 2, 4, 8}
                 && (exists write: seq<u8> :: |write| == length && LeValue(write) == datamatch)
                 && address + length < U64_LIMIT)
            && (r.Ok? <==> Spec(address, length, datamatch, gsi).Valid())
            && (r.Ok? ==> r.value == Spec(address, length, datamatch, gsi))
            && (r == Err(UnsupportedLength) <==> length !in {1, 2, 4, 8})
            && (r == Err(DatamatchTooWide) <==>
                  length in {1, 2, 4, 8} && forall write: seq<u8> :: |write| == length ==> LeValue(write) != datamatch)
  {
    hide LeValue; hide LeBytes; hide Pow2;
    WordSizes();
    if length in {1, 2, 4, 8} {
      if datamatch < Pow2(8 * length) {
        LeRoundTrip(datamatch, length);
        assert |LeBytes(datamatch, length)| == length;
      }
      forall write: seq<u8> | |write| == length ensures LeValue(write) < Pow2(8 * length) {
        LeValueBound(write);
      }
    }
  }

  // ---------------------------------------------------------------- pairs

  datatype PairError = OverlappingDoorbells | SharedGsi

  datatype Pair = Pair(first: Spec, second: Spec) {

    /** What the constructor guarantees: disjoint, strictly ascending doorbells on different lines. */
    ghost predicate Valid() {
      && first.Valid() && second.Valid()
      && first.address + first.length <= second.address
      && first.gsi != second.gsi
    }
  }

  function NewPair(a: Spec, b: Spec): Result<Pair, PairError> {
    var (first, second) := if b.address < a.address then (b, a) else (a, b);
    if first.address + first.length > second.address then Err(OverlappingDoorbells)
    else if first.gsi == second.gsi then Err(SharedGsi)
    else Ok(Pair(first, second))
  }

  ghost predicate Disjoint(a: Spec, b: Spec) {
    forall x: nat :: !(a.Covers(x) && b.Covers(x))
  }

  /** Two descriptors pair up exactly when no address rings both doorbells and their interrupt
      lines differ, whichever is named first; the result holds the same two, strictly ascending. */
  lemma NewPairExact(a: Spec, b: Spec)
    requires a.Valid() && b.Valid()
    ensures NewPair(a, b).Ok? <==> Disjoint(a, b) && a.gsi != b.gsi
    ensures NewPair(a, b) == NewPair(b, a)
    ensures NewPair(a, b) == Err(OverlappingDoorbells) <==> !Disjoint(a, b)
    ensures NewPair(a, b).Ok? ==>
              var p := NewPair(a, b).value;
              && p.Valid() && p.first.address < p.second.address
              && multiset{p.first, p.second} == multiset{a, b}
  {
    assert a.Covers(a.address) && b.Covers(b.address);
    if Disjoint(a, b) {
      assert !b.Covers(a.address) && !a.Covers(b.address);
    }
  }

  /** Constructing a pair again from its own members changes nothing: materialising a decoded
      pair cannot fail. */
  lemma NewPairIdempotent(p: Pair)
    ensures p.Valid() <==> p.first.Valid() && p.second.Valid() && NewPair(p.first, p.second) == Ok(p)
  {
  }
}
