/** Deriving the guest's CPUID policy from the host's and comparing two policies by leaf. */
module Cpuid {
  import opened Words

  datatype LeafKey = LeafKey(leaf: u32, index: u32)

  datatype Entry = Entry(leaf: u32, index: u32, flags: u32, eax: u32, ebx: u32, ecx: u32, edx: u32) {
    function Key(): LeafKey {
      LeafKey(leaf, index)
    }
  }

  const FEATURES: u32 := 1
  const XSTATE: u32 := 0xd
  const KVM_FEATURES: u32 := 0x4000_0001
  const X2APIC_AND_DEADLINE: u32 := 0x0120_0000
  const COMPACTED_XSAVE: u32 := 0xa
  const PV_UNHALT: u32 := 0x80
  const RESET_XSAVE_AREA: u32 := 576

  /** A register with the bits of a mask cleared, and those bits alone. */
  function Clear(x: u32, mask: u32): u32 {
    AndAtMost(x, 0xFFFF_FFFF - mask);
    And(x, 0xFFFF_FFFF - mask)
  }

  function Select(x: u32, mask: u32): u32 {
    AndAtMost(x, mask);
    And(x, mask)
  }

  // ---------------------------------------------------------------- policy

  /** One leaf as the guest sees it. */
  function Derive(e: Entry): Entry {
    if e.leaf == FEATURES then e.(ecx := Clear(e.ecx, X2APIC_AND_DEADLINE))
    else if e.leaf == XSTATE && e.index == 0 then e.(ebx := RESET_XSAVE_AREA)
    else if e.leaf == XSTATE && e.index == 1 && Select(e.eax, COMPACTED_XSAVE) != 0 then e.(ebx := RESET_XSAVE_AREA)
    else if e.leaf == KVM_FEATURES then e.(eax := Clear(e.eax, PV_UNHALT))
    else e
  }

  ghost function Policy(host: seq<Entry>): seq<Entry> {
    seq(|host|, i requires 0 <= i < |host| => Derive(host[i]))
  }

  method FromHost(host: seq<Entry>) returns (entries: seq<Entry>)
    ensures entries == Policy(host)
  {
    entries := host;
    for i := 0 to |entries|
      invariant |entries| == |host|
      invariant entries[..i] == Policy(host)[..i]
      invariant entries[i..] == host[i..]
    {
      assert entries[i] == host[i..][0];
      entries := entries[i := Derive(entries[i])];
    }
  }

  /** Clearing a mask clears its bits and keeps the others, once and for all. */
  lemma ClearMask(x: u32, mask: u32)
    ensures Clear(Clear(x, mask), mask) == Clear(x, mask)
    ensures Select(Clear(x, mask), mask) == 0
  {
    hide And; hide Pow2;
    WordSizes();
    AndTwice(x, 0xFFFF_FFFF - mask);
    AndComplement(x, mask, 32);
  }

  /** The leaf keeps its key, flags and EDX; ECX loses the x2APIC and TSC-deadline bits of leaf 1
      and no others; EAX loses the PV-unhalt bit of the KVM leaf and no others; EBX is the reset
      image size exactly where KVM recomputes it, and untouched elsewhere. */
  lemma DeriveExact(e: Entry)
    ensures var d := Derive(e);
            && d.Key() == e.Key() && d.flags == e.flags && d.edx == e.edx
            && Clear(d.ecx, X2APIC_AND_DEADLINE) == Clear(e.ecx, X2APIC_AND_DEADLINE)
            && Select(d.ecx, X2APIC_AND_DEADLINE) == (if e.leaf == 1 then 0 else Select(e.ecx, X2APIC_AND_DEADLINE))
            && Clear(d.eax, PV_UNHALT) == Clear(e.eax, PV_UNHALT)
            && Select(d.eax, PV_UNHALT) == (if e.leaf == 0x4000_0001 then 0 else Select(e.eax, PV_UNHALT))
            && d.ebx == (if e.leaf == 0xd && (e.index == 0 || (e.index == 1 && Select(e.eax, COMPACTED_XSAVE) != 0))
                         then 576 else e.ebx)
  {
    hide Clear; hide Select;
    ClearMask(e.ecx, X2APIC_AND_DEADLINE);
    ClearMask(e.eax, PV_UNHALT);
  }

  lemma ClearUnhalt(x: u32)
    ensures Clear(x, PV_UNHALT) == x - x / 0x80 % 2 * 0x80
  {
    hide And; hide Pow2; hide Low;
    Powers();
    AndSplit(x, 8, 0x100, x / 0x100, 0xffff_ff7f, 0xff_ffff, 0x7f);
    AndRange(x / 0x100, 24, 0);
    AndRange(x, 7, 0);
    LowIsMod(x / 0x100, 24, 0x100_0000);
    LowIsMod(x, 7, 0x80);
    LowNone(x / 0x100);
    LowNone(x);
    OneBit(x);
  }

  lemma OneBit(x: u32)
    ensures 0x100 * (x / 0x100 % 0x100_0000) + x % 0x80 == x - x / 0x80 % 2 * 0x80
  {
    var q := x / 0x80;
    ModUnique(x / 0x100, 0x100_0000, 0, x / 0x100);
    assert x == 0x80 * q + x % 0x80 && x / 0x100 == q / 2 && q == 2 * (q / 2) + q % 2;
  }

  lemma ClearDeadline(x: u32)
    ensures Clear(x, X2APIC_AND_DEADLINE) == x - x / 0x20_0000 % 2 * 0x20_0000 - x / 0x100_0000 % 2 * 0x100_0000
  {
    hide And; hide Pow2; hide Low;
    Powers();
    AndSplit(x, 25, 0x200_0000, x / 0x200_0000, 0xfedf_ffff, 0x7f, 0xdf_ffff);
    AndSplit(x, 22, 0x40_0000, x / 0x40_0000, 0xdf_ffff, 3, 0x1f_ffff);
    LowMasks(x);
    TwoBits(x);
  }

  lemma TwoBits(x: u32)
    ensures 0x200_0000 * (x / 0x200_0000 % 0x80) + 0x40_0000 * (x / 0x40_0000 % 4) + x % 0x20_0000
         == x - x / 0x20_0000 % 2 * 0x20_0000 - x / 0x100_0000 % 2 * 0x100_0000
  {
    var q := x / 0x20_0000;
    ModUnique(x / 0x200_0000, 0x80, 0, x / 0x200_0000);
    assert x == 0x20_0000 * q + x % 0x20_0000;
    assert x / 0x40_0000 == q / 2 && x / 0x100_0000 == q / 8 && x / 0x200_0000 == q / 16;
    Nibble(q);
  }

  lemma Nibble(q: nat)
    ensures q == 16 * (q / 16) + 8 * (q / 8 % 2) + 2 * (q / 2 % 4) + q % 2
  {
    var half, eighth := q / 2, q / 8;
    assert q == 2 * half + q % 2 && eighth == 2 * (eighth / 2) + eighth % 2;
    DivideHalf(q, 4);
    assert half == 4 * eighth + half % 4;
    ModUnique(q, 16, eighth / 2, 8 * (eighth % 2) + 2 * (half % 4) + q % 2);
  }

  lemma LowMasks(x: u32)
    ensures And(x / 0x200_0000, 0x7f) == x / 0x200_0000 % 0x80
    ensures And(x / 0x40_0000, 3) == x / 0x40_0000 % 4
    ensures And(x, 0x1f_ffff) == x % 0x20_0000
  {
    hide And; hide Pow2; hide Low;
    Powers();
    AndRange(x / 0x200_0000, 7, 0);
    LowIsMod(x / 0x200_0000, 7, 0x80);
    LowNone(x / 0x200_0000);
    AndRange(x / 0x40_0000, 2, 0);
    LowIsMod(x / 0x40_0000, 2, 4);
    LowNone(x / 0x40_0000);
    AndRange(x, 21, 0);
    LowIsMod(x, 21, 0x20_0000);
    LowNone(x);
  }

  lemma LowNone(x: nat)
    ensures Low(x, 0) == 0
  {
  }

  lemma Powers()
    ensures Pow2(0) == 1 && Pow2(2) == 4 && Pow2(7) == 0x80 && Pow2(8) == 0x100
    ensures Pow2(21) == 0x20_0000 && Pow2(22) == 0x40_0000 && Pow2(24) == 0x100_0000 && Pow2(25) == 0x200_0000
    ensures Pow2(32) == 0x1_0000_0000
  {
    WordSizes();
    assert Pow2(18) == 4 * Pow2(16) && Pow2(20) == 4 * Pow2(18) && Pow2(22) == 4 * Pow2(20) && Pow2(24) == 4 * Pow2(22);
    assert Pow2(22) == 2 * Pow2(21) && Pow2(25) == 2 * Pow2(24) && Pow2(8) == 2 * Pow2(7);
  }

  lemma SelectCompacted(x: u32)
    ensures Select(x, COMPACTED_XSAVE) == x / 8 % 2 * 8 + x / 2 % 2 * 2
  {
    hide And;
    AndUnfold(x, 10, 5, 0);
    AndUnfold(x / 2, 5, 2, 1);
    AndUnfold(x / 4, 2, 1, 0);
    AndUnfold(x / 8, 1, 0, 1);
    AndZero(x / 16);
  }

  /** Bit by bit: the guest loses ECX bits 21 (x2APIC) and 24 (TSC deadline) of leaf 1 and EAX bit 7
      (PV unhalt) of leaf 0x40000001; leaf 0xd reports 576 bytes in subleaf 0, and in subleaf 1 where
      EAX has bit 1 or bit 3; every other register of every leaf is the host's. */
  lemma DerivedBits(e: Entry)
    ensures var d := Derive(e);
            && d.leaf == e.leaf && d.index == e.index && d.flags == e.flags && d.edx == e.edx
            && d.ecx == e.ecx - (if e.leaf == 1 then e.ecx / 0x20_0000 % 2 * 0x20_0000
                                                     + e.ecx / 0x100_0000 % 2 * 0x100_0000 else 0)
            && d.eax == e.eax - (if e.leaf == 0x4000_0001 then e.eax / 0x80 % 2 * 0x80 else 0)
            && d.ebx == (if e.leaf == 0xd && (e.index == 0
                                              || (e.index == 1 && (e.eax / 2 % 2 == 1 || e.eax / 8 % 2 == 1)))
                         then 576 else e.ebx)
  {
    hide Clear; hide Select;
    ClearDeadline(e.ecx);
    ClearUnhalt(e.eax);
    SelectCompacted(e.eax);
  }

  /** A guest policy is its own guest policy. */
  lemma PolicyIdempotent(host: seq<Entry>)
    ensures Policy(Policy(host)) == Policy(host)
  {
    forall e: Entry ensures Derive(Derive(e)) == Derive(e) {
      hide Clear; hide Select;
      ClearMask(e.ecx, X2APIC_AND_DEADLINE);
      ClearMask(e.eax, PV_UNHALT);
    }
  }

  // ---------------------------------------------------------------- comparison

  datatype Field = Flags | Eax | Ebx | Ecx | Edx

  datatype Mismatch = Mismatch(key: LeafKey, reference: Entry, observed: Entry, fields: seq<Field>)

  function DifferingFields(r: Entry, o: Entry): seq<Field> {
    (if r.flags != o.flags then [Flags] else [])
    + (if r.eax != o.eax then [Eax] else [])
    + (if r.ebx != o.ebx then [Ebx] else [])
    + (if r.ecx != o.ecx then [Ecx] else [])
    + (if r.edx != o.edx then [Edx] else [])
  }

  function Between(r: Entry, o: Entry): Option<Mismatch>
    requires r.Key() == o.Key()
  {
    var fields := DifferingFields(r, o);
    if fields == [] then None else Some(Mismatch(r.Key(), r, o, fields))
  }

  predicate Differs(r: Entry, o: Entry, f: Field) {
    match f
    case Flags => r.flags != o.flags
    case Eax => r.eax != o.eax case Ebx => r.ebx != o.ebx case Ecx => r.ecx != o.ecx case Edx => r.edx != o.edx
  }

  function Position(f: Field): nat {
    match f case Flags => 0 case Eax => 1 case Ebx => 2 case Ecx => 3 case Edx => 4
  }

  /** `fields` lists, in order and once each, exactly the differing fields before position `n`. */
  ghost predicate Lists(fields: seq<Field>, r: Entry, o: Entry, n: nat) {
    && (forall i, j :: 0 <= i < j < |fields| ==> Position(fields[i]) < Position(fields[j]))
    && (forall f :: f in fields <==> Position(f) < n && Differs(r, o, f))
  }

  lemma Push(fields: seq<Field>, r: Entry, o: Entry, f: Field)
    requires Lists(fields, r, o, Position(f))
    ensures Lists(fields + if Differs(r, o, f) then [f] else [], r, o, Position(f) + 1)
  {
    hide Differs;
    var longer := fields + if Differs(r, o, f) then [f] else [];
    assert forall g :: g in longer <==> g in fields || (Differs(r, o, f) && g == f);
    assert forall i :: 0 <= i < |fields| ==> fields[i] in fields;
    assert forall g :: Position(g) == Position(f) ==> g == f;
  }

  /** Two entries of one leaf mismatch exactly when they differ, and the report names exactly the
      fields that differ, once each and in order. */
  lemma BetweenExact(r: Entry, o: Entry)
    requires r.Key() == o.Key()
    ensures Between(r, o).None? <==> r == o
    ensures Between(r, o).Some? ==>
              var m := Between(r, o).value;
              m.reference == r && m.observed == o && m.key == r.Key() && Lists(m.fields, r, o, 5)
  {
    FieldsListed(r, o);
    hide DifferingFields;
    var fields := DifferingFields(r, o);
    assert fields == [] || Differs(r, o, fields[0]) by { assert fields == [] || fields[0] in fields; }
    assert forall f :: Differs(r, o, f) ==> Position(f) < 5 && f in fields;
    assert Differs(r, o, Flags) || Differs(r, o, Eax) || Differs(r, o, Ebx) || Differs(r, o, Ecx) || Differs(r, o, Edx)
           || r == o;
  }

  lemma FieldsListed(r: Entry, o: Entry)
    ensures Lists(DifferingFields(r, o), r, o, 5)
  {
    hide Lists;
    assert Lists([], r, o, 0) by { NoneListed(r, o); }
    var a := [] + if Differs(r, o, Flags) then [Flags] else [];
    Push([], r, o, Flags);
    var b := a + if Differs(r, o, Eax) then [Eax] else [];
    Push(a, r, o, Eax);
    var c := b + if Differs(r, o, Ebx) then [Ebx] else [];
    Push(b, r, o, Ebx);
    var d := c + if Differs(r, o, Ecx) then [Ecx] else [];
    Push(c, r, o, Ecx);
    Push(d, r, o, Edx);
    assert a == if r.flags != o.flags then [Flags] else [];
  }

  lemma NoneListed(r: Entry, o: Entry)
    ensures Lists([], r, o, 0)
  {
  }

  predicate HasKey(s: seq<Entry>, k: LeafKey) {
    exists i :: 0 <= i < |s| && s[i].Key() == k
  }

  /** The first entry of a leaf. */
  function Find(s: seq<Entry>, k: LeafKey): Option<Entry> {
    if s == [] then None else if s[0].Key() == k then Some(s[0]) else Find(s[1..], k)
  }

  /** Entries of `s` whose leaf `other` does not have. */
  function Without(s: seq<Entry>, other: seq<Entry>): seq<Entry> {
    if s == [] then []
    else (if HasKey(other, s[0].Key()) then [] else [s[0]]) + Without(s[1..], other)
  }

  function Mismatches(reference: seq<Entry>, observed: seq<Entry>): seq<Mismatch> {
    if reference == [] then []
    else
      var r := reference[0];
      FindKey(observed, r.Key());
      var candidate := Find(observed, r.Key());
      var found := if candidate.None? then None else Between(r, candidate.value);
      (if found.Some? then [found.value] else []) + Mismatches(reference[1..], observed)
  }

  lemma {:induction false} FindKey(s: seq<Entry>, k: LeafKey)
    ensures Find(s, k).Some? ==> Find(s, k).value.Key() == k && Find(s, k).value in s
    ensures Find(s, k).Some? <==> HasKey(s, k)
  {
    if s != [] && s[0].Key() != k {
      FindKey(s[1..], k);
      if HasKey(s, k) {
        var i :| 0 <= i < |s| && s[i].Key() == k;
        assert s[1..][i - 1].Key() == k;
      }
    }
  }

  datatype Comparison = Comparison(missing: seq<Entry>, extra: seq<Entry>, mismatches: seq<Mismatch>) {
    predicate IsExactMatch() {
      missing == [] && extra == [] && mismatches == []
    }
  }

  function Compare(reference: seq<Entry>, observed: seq<Entry>): Comparison {
    Comparison(Without(reference, observed), Without(observed, reference), Mismatches(reference, observed))
  }

  // ---------------------------------------------------------------- what a comparison means

  lemma {:induction false} WithoutExact(s: seq<Entry>, other: seq<Entry>, e: Entry)
    ensures e in Without(s, other) <==> e in s && !HasKey(other, e.Key())
  {
    if s != [] { WithoutExact(s[1..], other, e); }
  }

  lemma {:induction false} MismatchesExact(reference: seq<Entry>, observed: seq<Entry>, m: Mismatch)
    ensures m in Mismatches(reference, observed) <==>
              && m.reference in reference
              && Find(observed, m.reference.Key()) == Some(m.observed)
              && m.reference != m.observed
              && m.key == m.reference.Key() && m.fields == DifferingFields(m.reference, m.observed)
  {
    if reference != [] {
      var r := reference[0];
      MismatchesExact(reference[1..], observed, m);
      FindKey(observed, r.Key());
      if HasKey(observed, r.Key()) { BetweenExact(r, Find(observed, r.Key()).value); }
      if m.reference == r && Find(observed, r.Key()) == Some(m.observed) && r != m.observed {
        assert Between(r, m.observed) == Some(Mismatch(r.Key(), r, m.observed, DifferingFields(r, m.observed)));
      }
    }
  }

  /** The reported mismatch of an entry, if it has one. */
  ghost predicate Mismatched(reference: seq<Entry>, observed: seq<Entry>, r: Entry) {
    exists m :: m in Mismatches(reference, observed) && m.reference == r
  }

  /** Each reference entry is exactly one of missing, mismatched, or equal to what was observed
      for its leaf; and what is missing one way round is extra the other. */
  lemma ComparisonPartitions(reference: seq<Entry>, observed: seq<Entry>, r: Entry)
    requires r in reference
    ensures var c := Compare(reference, observed);
            var missing, mismatched, equal :=
              r in c.missing, Mismatched(reference, observed, r), Find(observed, r.Key()) == Some(r);
            && (missing || mismatched || equal)
            && !(missing && mismatched) && !(missing && equal) && !(mismatched && equal)
    ensures Compare(reference, observed).missing == Compare(observed, reference).extra
  {
    WithoutExact(reference, observed, r);
    FindKey(observed, r.Key());
    if Find(observed, r.Key()).Some? {
      var o := Find(observed, r.Key()).value;
      MismatchesExact(reference, observed, Mismatch(r.Key(), r, o, DifferingFields(r, o)));
    }
    if Mismatched(reference, observed, r) {
      var m :| m in Mismatches(reference, observed) && m.reference == r;
      MismatchesExact(reference, observed, m);
    }
  }

  /** A policy read as a map: the first entry of each leaf. */
  ghost function AsMap(s: seq<Entry>): (m: map<LeafKey, Entry>)
    ensures forall k :: k in m <==> Find(s, k).Some?
    ensures forall k :: k in m ==> Find(s, k) == Some(m[k])
  {
    if s == [] then map[] else AsMap(s[1..])[s[0].Key() := s[0]]
  }

  /** Entries of one leaf agree. */
  ghost predicate Consistent(s: seq<Entry>) {
    forall e :: e in s ==> Find(s, e.Key()) == Some(e)
  }

  /** No leaf occurs twice. */
  ghost predicate UniqueKeys(s: seq<Entry>) {
    forall i, j :: 0 <= i < j < |s| ==> s[i].Key() != s[j].Key()
  }

  /** For all lists: an exact match means the reference has no conflicting duplicates and the two
      lists are the same map. */
  lemma ExactMatchIsMapEquality(a: seq<Entry>, b: seq<Entry>)
    ensures Compare(a, b).IsExactMatch() <==> Consistent(a) && AsMap(a) == AsMap(b)
  {
    ExactMatchByEntry(a, b);
    if Compare(a, b).IsExactMatch() {
      forall k ensures Find(a, k) == Find(b, k) {
        FindKey(a, k); FindKey(b, k);
      }
    } else if Consistent(a) && AsMap(a) == AsMap(b) {
      SameFinds(a, b);
      forall e | e in a ensures Find(b, e.Key()) == Some(e) {
        assert Find(a, e.Key()) == Some(e);
      }
      forall e | e in b ensures HasKey(a, e.Key()) {
        InListHasKey(b, e); FindKey(b, e.Key()); FindKey(a, e.Key());
      }
    }
  }

  lemma InListHasKey(s: seq<Entry>, e: Entry)
    requires e in s
    ensures HasKey(s, e.Key())
  {
    var i :| 0 <= i < |s| && s[i] == e;
  }

  lemma SameFinds(a: seq<Entry>, b: seq<Entry>)
    requires AsMap(a) == AsMap(b)
    ensures forall k :: Find(a, k) == Find(b, k)
  {
    forall k ensures Find(a, k) == Find(b, k) {
      assert k in AsMap(a) <==> k in AsMap(b);
    }
  }

  lemma ExactMatchByEntry(a: seq<Entry>, b: seq<Entry>)
    ensures Compare(a, b).IsExactMatch() <==>
              (forall e :: e in a ==> Find(b, e.Key()) == Some(e)) && (forall e :: e in b ==> HasKey(a, e.Key()))
  {
    var c := Compare(a, b);
    if c.IsExactMatch() {
      forall e | e in a ensures Find(b, e.Key()) == Some(e) {
        ComparisonPartitions(a, b, e);
      }
      forall e | e in b ensures HasKey(a, e.Key()) {
        WithoutExact(b, a, e);
      }
    } else if (forall e :: e in a ==> Find(b, e.Key()) == Some(e)) && (forall e :: e in b ==> HasKey(a, e.Key())) {
      if c.missing != [] {
        WithoutExact(a, b, c.missing[0]);
        FindKey(b, c.missing[0].Key());
      } else if c.extra != [] {
        WithoutExact(b, a, c.extra[0]);
      } else {
        MismatchesExact(a, b, c.mismatches[0]);
      }
    }
  }

  // ---------------------------------------------------------------- unique leaves

  lemma {:induction false} UniqueFind(s: seq<Entry>, e: Entry)
    requires UniqueKeys(s)
    ensures multiset(s)[e] == if Find(s, e.Key()) == Some(e) then 1 else 0
  {
    if s != [] {
      var rest := s[1..];
      assert s == [s[0]] + rest;
      assert UniqueKeys(rest) by {
        assert forall i :: 0 <= i < |rest| ==> rest[i] == s[i + 1];
      }
      UniqueFind(rest, e);
      FindKey(rest, e.Key());
      assert !HasKey(rest, s[0].Key()) by {
        assert forall i :: 0 <= i < |rest| ==> rest[i] == s[i + 1];
      }
    }
  }

  lemma PermutationFinds(a: seq<Entry>, b: seq<Entry>, k: LeafKey)
    requires UniqueKeys(a) && UniqueKeys(b) && multiset(a) == multiset(b)
    ensures Find(a, k) == Find(b, k)
  {
    hide UniqueKeys; hide Find;
    FindKey(a, k); FindKey(b, k);
    if Find(a, k).Some? { UniqueFind(a, Find(a, k).value); UniqueFind(b, Find(a, k).value); }
    if Find(b, k).Some? { UniqueFind(a, Find(b, k).value); UniqueFind(b, Find(b, k).value); }
  }

  lemma UniqueIsConsistent(s: seq<Entry>)
    requires UniqueKeys(s)
    ensures Consistent(s)
  {
    hide UniqueKeys; hide Find;
    forall e | e in s ensures Find(s, e.Key()) == Some(e) { UniqueFind(s, e); }
  }

  /** Where no leaf repeats, a comparison is exact when and only when the two policies hold the
      same entries in some order. */
  lemma ExactMatchIsPermutation(a: seq<Entry>, b: seq<Entry>)
    requires UniqueKeys(a) && UniqueKeys(b)
    ensures Compare(a, b).IsExactMatch() <==> multiset(a) == multiset(b)
  {
    ExactMatchIsMapEquality(a, b);
    UniqueIsConsistent(a);
    hide UniqueKeys; hide Find; hide Compare; hide Consistent;
    if AsMap(a) == AsMap(b) {
      SameFinds(a, b);
      forall e ensures multiset(a)[e] == multiset(b)[e] { UniqueFind(a, e); UniqueFind(b, e); }
    }
    if multiset(a) == multiset(b) {
      forall k ensures Find(a, k) == Find(b, k) { PermutationFinds(a, b, k); }
    }
  }

  /** Deriving a policy keeps leaves unique, and a policy derived twice matches exactly. */
  lemma DerivedPolicyMatchesItself(host: seq<Entry>)
    requires UniqueKeys(host)
    ensures UniqueKeys(Policy(host)) && Compare(Policy(host), Policy(Policy(host))).IsExactMatch()
  {
    forall i | 0 <= i < |host| ensures Policy(host)[i].Key() == host[i].Key() {
      DeriveExact(host[i]);
    }
    PolicyIdempotent(host);
    ExactMatchIsPermutation(Policy(host), Policy(host));
  }

  /** With repeated leaves neither half survives: a list can match a shorter one exactly, and a
      list with two readings of one leaf does not match even itself. */
  lemma RepeatedLeavesBreakBoth(e: Entry, other: Entry)
    requires e.Key() == other.Key() && e != other
    ensures Compare([e, e], [e]).IsExactMatch() && multiset([e, e]) != multiset([e])
    ensures !Compare([e, other], [e, other]).IsExactMatch()
  {
    ExactMatchByEntry([e, e], [e]);
    assert [e][0] == e;
    assert HasKey([e, e], e.Key()) by { assert [e, e][0] == e; }
    assert |multiset([e, e])| == 2;
    ExactMatchByEntry([e, other], [e, other]);
    assert other in [e, other];
    assert Find([e, other], other.Key()) == Some(e);
  }

  /** A policy matches itself exactly when entries of one leaf never disagree. */
  lemma SelfMatchExact(a: seq<Entry>)
    ensures Compare(a, a).IsExactMatch() <==>
              forall i, j :: 0 <= i < |a| && 0 <= j < |a| && a[i].Key() == a[j].Key() ==> a[i] == a[j]
  {
    ExactMatchIsMapEquality(a, a);
    if Consistent(a) {
      forall i, j | 0 <= i < |a| && 0 <= j < |a| && a[i].Key() == a[j].Key() ensures a[i] == a[j] {
        assert Find(a, a[i].Key()) == Some(a[i]);
      }
    } else {
      var e :| e in a && Find(a, e.Key()) != Some(e);
      InListHasKey(a, e);
      FindKey(a, e.Key());
      var o := Find(a, e.Key()).value;
      var i :| 0 <= i < |a| && a[i] == e;
      var j :| 0 <= j < |a| && a[j] == o;
    }
  }
}
