/** Machine words, little-endian byte strings, bitwise operators on naturals and
    byte-range replacement: the vocabulary the rest of the model is written in. */
module Words {

  type u8 = x: int | 0 <= x < 0x100
  type u16 = x: int | 0 <= x < 0x1_0000
  type u32 = x: int | 0 <= x < 0x1_0000_0000
  type u64 = x: int | 0 <= x < 0x1_0000_0000_0000_0000

  const U64_LIMIT: int := 0x1_0000_0000_0000_0000

  datatype Option<+T> = None | Some(value: T)

  datatype Result<+T, +E> = Ok(value: T) | Err(error: E) {
    predicate IsFailure() { Err? }

    function PropagateFailure<U>(): Result<U, E>
      requires Err?
    {
      Err(error)
    }

    function Extract(): T
      requires Ok?
    {
      value
    }
  }

  // ---------------------------------------------------------------- powers of two

  function Pow2(k: nat): (r: nat)
    ensures r > 0
  {
    if k == 0 then 1 else 2 * Pow2(k - 1)
  }

  // ---------------------------------------------------------------- little endian

  /** The value of a little-endian byte string. */
  function LeValue(bytes: seq<u8>): nat
  {
    if bytes == [] then 0 else bytes[0] + 256 * LeValue(bytes[1..])
  }

  /** The low `count` bytes of `value`, least significant first. */
  function LeBytes(value: nat, count: nat): (bytes: seq<u8>)
    ensures |bytes| == count
  {
    if count == 0 then [] else [value % 256] + LeBytes(value / 256, count - 1)
  }

  lemma {:induction false} LeValueBound(bytes: seq<u8>)
    ensures LeValue(bytes) < Pow2(8 * |bytes|)
  {
    if bytes != [] {
      LeValueBound(bytes[1..]);
      Pow2Step8(|bytes| - 1);
    }
  }

  lemma Pow2Step8(n: nat)
    ensures Pow2(8 * (n + 1)) == 256 * Pow2(8 * n)
  {
    var k := 8 * n;
    assert Pow2(k + 8) == 2 * Pow2(k + 7) && Pow2(k + 7) == 2 * Pow2(k + 6);
    assert Pow2(k + 6) == 2 * Pow2(k + 5) && Pow2(k + 5) == 2 * Pow2(k + 4);
    assert Pow2(k + 4) == 2 * Pow2(k + 3) && Pow2(k + 3) == 2 * Pow2(k + 2);
    assert Pow2(k + 2) == 2 * Pow2(k + 1) && Pow2(k + 1) == 2 * Pow2(k);
  }

  /** Reading back a value that fits its field gives the value. */
  lemma {:induction false} LeRoundTrip(value: nat, count: nat)
    requires value < Pow2(8 * count)
    ensures LeValue(LeBytes(value, count)) == value
  {
    if count > 0 {
      Pow2Step8(count - 1);
      LeRoundTrip(value / 256, count - 1);
      assert LeBytes(value, count)[1..] == LeBytes(value / 256, count - 1);
    }
  }

  /** A byte string is the encoding of its own value. */
  lemma {:induction false} LeCanonical(bytes: seq<u8>)
    ensures LeBytes(LeValue(bytes), |bytes|) == bytes
  {
    if bytes != [] {
      LeCanonical(bytes[1..]);
      ModUnique(LeValue(bytes), 256, LeValue(bytes[1..]), bytes[0]);
      assert bytes == [bytes[0]] + bytes[1..];
    }
  }

  lemma WordSizes()
    ensures Pow2(8) == 0x100 && Pow2(16) == 0x1_0000 && Pow2(32) == 0x1_0000_0000
    ensures Pow2(64) == U64_LIMIT
  {
    Pow2Step8(0); Pow2Step8(1); Pow2Step8(2); Pow2Step8(3);
    Pow2Step8(4); Pow2Step8(5); Pow2Step8(6); Pow2Step8(7);
    assert Pow2(0) == 1;
  }

  /** Round trip of a field of one, two, four or eight bytes. */
  lemma LeWord(value: nat, count: nat)
    requires (count == 1 && value < 0x100) || (count == 2 && value < 0x1_0000)
             || (count == 4 && value < 0x1_0000_0000) || (count == 8 && value < U64_LIMIT)
    ensures LeValue(LeBytes(value, count)) == value
  {
    WordSizes();
    LeRoundTrip(value, count);
  }

  /** The fixed-width fields of a byte string. */
  function U16At(s: seq<u8>, at: nat): u16
    requires at + 2 <= |s|
  {
    WordSizes(); LeValueBound(s[at..at + 2]);
    LeValue(s[at..at + 2])
  }

  function U32At(s: seq<u8>, at: nat): u32
    requires at + 4 <= |s|
  {
    WordSizes(); LeValueBound(s[at..at + 4]);
    LeValue(s[at..at + 4])
  }

  /** The little-endian 64-bit word at byte offset `at`. */
  function U64At(s: seq<u8>, at: nat): u64
    requires at + 8 <= |s|
  {
    WordSizes(); LeValueBound(s[at..at + 8]);
    LeValue(s[at..at + 8])
  }

  // ---------------------------------------------------------------- bitwise operators

  /** Bitwise or of two naturals. */
  function Or(a: nat, b: nat): nat
    decreases a + b
  {
    if a == 0 && b == 0 then 0
    else 2 * Or(a / 2, b / 2) + (if a % 2 == 1 || b % 2 == 1 then 1 else 0)
  }

  /** Bitwise and of two naturals. */
  function And(a: nat, b: nat): nat
    decreases a
  {
    if a == 0 then 0
    else 2 * And(a / 2, b / 2) + (if a % 2 == 1 && b % 2 == 1 then 1 else 0)
  }

  /** On an aligned value, or-ing in flags below the alignment is addition. */
  lemma {:induction false} OrIsAdd(a: nat, b: nat, k: nat)
    requires a % Pow2(k) == 0 && b < Pow2(k)
    ensures Or(a, b) == a + b
  {
    if k == 0 {
      OrZero(a);
    } else {
      HalfAligned(a, Pow2(k - 1));
      OrIsAdd(a / 2, b / 2, k - 1);
    }
  }

  lemma {:induction false} OrZero(a: nat)
    ensures Or(a, 0) == a
  {
    if a > 0 { OrZero(a / 2); }
  }

  lemma HalfAligned(a: nat, p: nat)
    requires p > 0 && a % (2 * p) == 0
    ensures a % 2 == 0 && (a / 2) % p == 0
  {
    var q := a / (2 * p);
    assert a == 2 * p * q;
    assert a == 2 * (p * q);
    assert a / 2 == p * q;
    MultipleMod(p, q);
  }

  lemma MultipleMod(p: nat, q: nat)
    requires p > 0
    ensures (p * q) % p == 0
  {
    ModUnique(p * q, p, q, 0);
  }

  /** Flags or-ed into a page-aligned address. */
  lemma PageOr(page: nat, flags: nat)
    requires page % 4096 == 0 && flags < 4096
    ensures Or(page, flags) == page + flags
  {
    Pow2At12();
    OrIsAdd(page, flags, 12);
  }

  lemma Pow2At12()
    ensures Pow2(12) == 4096
  {
    WordSizes();
    assert Pow2(12) == 16 * Pow2(8);
  }

  /** The low `k` bits of a value. */
  function Low(a: nat, k: nat): nat {
    if k == 0 then 0 else 2 * Low(a / 2, k - 1) + a % 2
  }

  lemma {:induction false} LowIsMod(a: nat, k: nat, p: nat)
    requires p == Pow2(k)
    ensures Low(a, k) == a % p
  {
    if k > 0 {
      LowIsMod(a / 2, k - 1, Pow2(k - 1));
      ModHalf(a, Pow2(k - 1));
    }
  }

  /** Masking with `2^n - 2^k` keeps bits `k` to `n - 1`. */
  lemma {:induction false} AndRange(a: nat, n: nat, k: nat)
    requires k <= n
    ensures Pow2(n) >= Pow2(k) && And(a, Pow2(n) - Pow2(k)) == Low(a, n) - Low(a, k)
    decreases n
  {
    hide And;
    if n == k {
      AndZero(a);
    } else if k == 0 {
      AndRange(a / 2, n - 1, 0);
      AndUnfold(a, 2 * Pow2(n - 1) - 1, Pow2(n - 1) - 1, 1);
    } else {
      AndRange(a / 2, n - 1, k - 1);
      AndUnfold(a, 2 * Pow2(n - 1) - 2 * Pow2(k - 1), Pow2(n - 1) - Pow2(k - 1), 0);
    }
  }

  lemma AndUnfold(a: nat, mask: nat, half: nat, low: nat)
    requires mask == 2 * half + low && low < 2
    ensures And(a, mask) == 2 * And(a / 2, half) + (a % 2) * low
  {
    assert mask / 2 == half && mask % 2 == low;
    if a == 0 { assert And(a / 2, half) == 0; }
  }

  /** A mask in two parts, the lower below `p`, a power of two, masks the two parts of the value. */
  lemma {:induction false} AndSplit(a: nat, k: nat, p: nat, q: nat, mask: nat, high: nat, low: nat)
    requires p == Pow2(k) && q == a / p && low < p && mask == p * high + low
    ensures And(a, mask) == p * And(q, high) + And(a, low)
    decreases k
  {
    hide And;
    if k == 0 {
      AndZero(a);
      assert q == a && mask == high;
    } else {
      var half := Pow2(k - 1);
      var rest := Doubled(half, high);
      DivideHalf(a, half);
      hide Pow2;
      AndSplit(a / 2, k - 1, half, q, rest + low / 2, high, low / 2);
      AndUnfold(a, low, low / 2, low % 2);
      AndUnfold(a, mask, rest + low / 2, low % 2);
      var kept := Doubled(half, And(q, high));
    }
  }

  lemma Doubled(half: nat, x: nat) returns (product: nat)
    ensures product == half * x && 2 * half * x == 2 * product
  {
    product := half * x;
  }

  lemma DivideHalf(a: nat, p: nat)
    requires p > 0
    ensures a / 2 / p == a / (2 * p)
  {
    var q, r := a / 2 / p, a / 2 % p;
    assert a == 2 * (p * q + r) + a % 2;
    assert 2 * (p * q) == 2 * p * q;
    ModUnique(a, 2 * p, q, 2 * r + a % 2);
  }

  lemma {:induction false} AndZero(a: nat)
    ensures And(a, 0) == 0
  {
    if a > 0 { AndZero(a / 2); }
  }

  lemma {:induction false} AndAtMost(a: nat, b: nat)
    ensures And(a, b) <= a
  {
    if a > 0 { AndAtMost(a / 2, b / 2); }
  }

  lemma {:induction false} AndTwice(a: nat, b: nat)
    ensures And(And(a, b), b) == And(a, b)
  {
    if a > 0 { AndTwice(a / 2, b / 2); }
  }

  /** What is left after masking with the complement has no bit of the mask. */
  lemma {:induction false} AndComplement(a: nat, mask: nat, bits: nat)
    requires mask < Pow2(bits)
    ensures And(And(a, Pow2(bits) - 1 - mask), mask) == 0
  {
    if a > 0 && bits > 0 {
      AndComplement(a / 2, mask / 2, bits - 1);
      var rest := Pow2(bits) - 1 - mask;
      assert rest / 2 == Pow2(bits - 1) - 1 - mask / 2 && (rest % 2 == 1 <==> mask % 2 == 0);
    } else if a > 0 {
      AndZero(And(a, Pow2(bits) - 1 - mask));
    }
  }

  lemma ModHalf(a: nat, p: nat)
    requires p > 0
    ensures a % (2 * p) == 2 * ((a / 2) % p) + a % 2
  {
    var h := a / 2;
    var q := h / p;
    assert h == p * q + h % p;
    assert a == (2 * p) * q + (2 * (h % p) + a % 2);
    ModUnique(a, 2 * p, q, 2 * (h % p) + a % 2);
  }

  lemma ModUnique(a: nat, p: nat, q: nat, r: nat)
    requires a == p * q + r && r < p
    ensures a % p == r && a / p == q
  {
    var d := a / p - q;
    assert a == p * (a / p) + a % p;
    assert p * d == r - a % p by { assert p * d == p * (a / p) - p * q; }
    MulAtLeast(p, if d < 0 then -d else d);
    assert p * -d == -(p * d);
  }

  lemma {:induction false} MulAtLeast(p: nat, d: nat)
    ensures d > 0 ==> p * d >= p
  {
    if d > 1 {
      MulAtLeast(p, d - 1);
      assert p * d == p * (d - 1) + p;
    }
  }

  /** Clearing the low 12 bits of a 64-bit address with a mask. */
  lemma AlignDown4K(a: u64)
    ensures And(a, 0xFFFF_FFFF_FFFF_F000) == a - a % 4096
  {
    hide And; hide Low; hide Pow2;
    assert Pow2(64) - Pow2(12) == 0xFFFF_FFFF_FFFF_F000 by { WordSizes(); Pow2At12(); }
    assert Low(a, 64) == a by { WordSizes(); LowIsMod(a, 64, U64_LIMIT); }
    assert Low(a, 12) == a % 4096 by { Pow2At12(); LowIsMod(a, 12, 4096); }
    AndRange(a, 64, 12);
  }

  // ---------------------------------------------------------------- byte ranges

  /** `s` with the bytes from `at` on replaced by `bytes`. */
  function Patch(s: seq<u8>, at: nat, bytes: seq<u8>): (t: seq<u8>)
    requires at + |bytes| <= |s|
    ensures |t| == |s|
    ensures forall j :: at <= j < at + |bytes| ==> t[j] == bytes[j - at]
    ensures SameOutside(s, t, at, at + |bytes|)
  {
    s[..at] + bytes + s[at + |bytes|..]
  }

  /** `t` agrees with `s` everywhere but on `lo..hi`. */
  ghost predicate SameOutside(s: seq<u8>, t: seq<u8>, lo: nat, hi: nat)
  {
    |s| == |t| && forall j :: 0 <= j < |s| && !(lo <= j < hi) ==> t[j] == s[j]
  }

  /** `t` agrees with `s` on `lo..hi`. */
  ghost predicate SameOn(s: seq<u8>, t: seq<u8>, lo: nat, hi: nat)
  {
    |s| == |t| && forall j :: lo <= j < hi && j < |s| ==> t[j] == s[j]
  }

  lemma SubSlice(s: seq<u8>, lo: nat, hi: nat, i: nat, j: nat)
    requires lo <= hi <= |s| && i <= j <= hi - lo
    ensures s[lo..hi][i..j] == s[lo + i..lo + j]
  {
    var inner, direct := s[lo..hi][i..j], s[lo + i..lo + j];
    assert forall k :: 0 <= k < j - i ==> inner[k] == s[lo..hi][i + k] && direct[k] == s[lo + i + k];
    assert inner == direct;
  }

  /** Little-endian words outside a changed range keep their value. */
  lemma U64Frame(s: seq<u8>, t: seq<u8>, lo: nat, hi: nat)
    requires SameOutside(s, t, lo, hi)
    ensures forall p: nat {:trigger U64At(t, p)} ::
              p + 8 <= |s| && (p + 8 <= lo || hi <= p) ==> U64At(t, p) == U64At(s, p)
  {
    forall p: nat | p + 8 <= |s| && (p + 8 <= lo || hi <= p)
      ensures U64At(t, p) == U64At(s, p)
    {
      assert t[p..p + 8] == s[p..p + 8];
    }
  }

  /** A word written is the word read. */
  lemma U64Written(s: seq<u8>, at: nat, value: u64)
    requires at + 8 <= |s|
    ensures U64At(Patch(s, at, LeBytes(value, 8)), at) == value
  {
    var t := Patch(s, at, LeBytes(value, 8));
    assert t[at..at + 8] == LeBytes(value, 8);
    WordSizes();
    LeRoundTrip(value, 8);
  }
}
