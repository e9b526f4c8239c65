/** Bit-level helpers shared by every protocol.

    Words of up to 64 bits (`uint64_t` in the protocols) are natural numbers
    below `Pow2(64)`; a bitwise operation on them is stated through the
    words' bit sequences. Bytes (`uint8_t`) are natural numbers below 256. */
module Bits {

  function Pow2(n: nat): (p: nat)
    ensures p >= 1
  {
    if n == 0 then 1 else 2 * Pow2(n - 1)
  }

  predicate IsWord(x: nat) { x < Pow2(64) }

  /** Powers of two multiply by adding exponents. */
  lemma {:induction false} Pow2Sum(a: nat, b: nat)
    ensures Pow2(a + b) == Pow2(a) * Pow2(b)
  {
    if a > 0 {
      Pow2Sum(a - 1, b);
    }
  }

  /** Powers of two grow with the exponent. */
  lemma {:induction false} Pow2Le(a: nat, b: nat)
    requires a <= b
    ensures Pow2(a) <= Pow2(b)
    decreases b
  {
    if a < b {
      Pow2Le(a, b - 1);
    }
  }

  /** The bound of a 32-bit word. */
  lemma Pow2Of32()
    ensures Pow2(32) == 0x1_0000_0000
  {
    assert Pow2(4) == 16;
    Pow2Sum(4, 4);
    assert Pow2(8) == 0x100;
    Pow2Sum(8, 8);
    assert Pow2(16) == 0x1_0000;
    Pow2Sum(16, 16);
  }

  /** The bound of a 64-bit word. */
  lemma Pow2Of64()
    ensures Pow2(64) == 0x1_0000_0000_0000_0000
  {
    Pow2Of32();
    Pow2Sum(32, 32);
  }

  /** The unsigned integer types of the protocol code. */
  type uint8 = x: nat | x < 0x100
  type uint16 = x: nat | x < 0x1_0000

  // ---------------------------------------------------------------------
  // Division facts

  lemma {:induction false} MulMono(d: nat, a: nat, b: nat)
    requires a <= b
    ensures d * a <= d * b
  {
    if a < b {
      MulMono(d, a, b - 1);
    }
  }

  /** A quotient and remainder pair is unique. */
  lemma DivModUnique(x: nat, d: nat, k: nat, t: nat)
    requires d >= 1 && x == d * k + t && t < d
    ensures x / d == k && x % d == t
  {
    var q := x / d;
    assert x == d * q + x % d;
    if q < k {
      MulMono(d, q + 1, k);
      assert false;
    } else if q > k {
      MulMono(d, k + 1, q);
      assert false;
    }
  }

  lemma DivModStep(x: nat, p: nat)
    requires p >= 1
    ensures x % (2 * p) == x % 2 + 2 * ((x / 2) % p)
    ensures x / (2 * p) == (x / 2) / p
  {
    var q := x / 2;
    var k := q / p;
    var s := q % p;
    assert q == p * k + s;
    assert x == (2 * p) * k + (2 * s + x % 2);
    DivModUnique(x, 2 * p, k, 2 * s + x % 2);
  }

  // ---------------------------------------------------------------------
  // A word as a sequence of bits

  /** The `n` low bits of `x`, least significant first. */
  function LsbBits(x: nat, n: nat): (bits: seq<bool>)
    ensures |bits| == n
  {
    if n == 0 then [] else [x % 2 == 1] + LsbBits(x / 2, n - 1)
  }

  /** The `n` low bits of `x`, most significant first. */
  function MsbBits(x: nat, n: nat): (bits: seq<bool>)
    ensures |bits| == n
  {
    if n == 0 then [] else MsbBits(x / 2, n - 1) + [x % 2 == 1]
  }

  /** The `n` low bits of `x` in transmission order. */
  function WordBits(x: nat, n: nat, msbFirst: bool): (bits: seq<bool>)
    ensures |bits| == n
  {
    if msbFirst then MsbBits(x, n) else LsbBits(x, n)
  }

  function BitValue(b: bool): nat { if b then 1 else 0 }

  /** Bits received least significant first, accumulated into a word. */
  function FromLsbFirst(bits: seq<bool>): (x: nat)
    ensures x < Pow2(|bits|)
  {
    if bits == [] then 0 else BitValue(bits[0]) + 2 * FromLsbFirst(bits[1..])
  }

  /** Bits received most significant first, accumulated as `(data << 1) | bit`. */
  function FromMsbFirst(bits: seq<bool>): (x: nat)
    ensures x < Pow2(|bits|)
  {
    if bits == [] then 0
    else 2 * FromMsbFirst(bits[..|bits| - 1]) + BitValue(bits[|bits| - 1])
  }

  function FromBits(bits: seq<bool>, msbFirst: bool): (x: nat)
    ensures x < Pow2(|bits|)
  {
    if msbFirst then FromMsbFirst(bits) else FromLsbFirst(bits)
  }

  lemma {:induction false} LsbFirstRoundTrip(x: nat, n: nat)
    ensures FromLsbFirst(LsbBits(x, n)) == x % Pow2(n)
  {
    if n > 0 {
      var bits := LsbBits(x, n);
      assert bits[1..] == LsbBits(x / 2, n - 1);
      LsbFirstRoundTrip(x / 2, n - 1);
      DivModStep(x, Pow2(n - 1));
    }
  }

  lemma {:induction false} MsbFirstRoundTrip(x: nat, n: nat)
    ensures FromMsbFirst(MsbBits(x, n)) == x % Pow2(n)
  {
    if n > 0 {
      var bits := MsbBits(x, n);
      assert bits[..n - 1] == MsbBits(x / 2, n - 1);
      MsbFirstRoundTrip(x / 2, n - 1);
      DivModStep(x, Pow2(n - 1));
    }
  }

  /** Sending the low `n` bits of a word and accumulating them back, in either
      order, gives the word truncated to `n` bits. */
  lemma WordRoundTrip(x: nat, n: nat, msbFirst: bool)
    ensures FromBits(WordBits(x, n, msbFirst), msbFirst) == x % Pow2(n)
  {
    if msbFirst { MsbFirstRoundTrip(x, n); } else { LsbFirstRoundTrip(x, n); }
  }

  lemma SmallMod(x: nat, p: nat)
    requires x < p
    ensures x % p == x
  {
    DivModUnique(x, p, 0, x);
  }

  /** Every bit sequence is the bit sequence of the word it accumulates to. */
  lemma {:induction false} LsbBitsOfFromLsbFirst(bits: seq<bool>)
    ensures LsbBits(FromLsbFirst(bits), |bits|) == bits
  {
    if bits != [] {
      LsbBitsOfFromLsbFirst(bits[1..]);
    }
  }

  lemma {:induction false} MsbBitsOfFromMsbFirst(bits: seq<bool>)
    ensures MsbBits(FromMsbFirst(bits), |bits|) == bits
  {
    if bits != [] {
      MsbBitsOfFromMsbFirst(bits[..|bits| - 1]);
    }
  }

  lemma Double(p: nat, y: nat)
    ensures (2 * p) * y == 2 * (p * y)
  {
  }

  /** The bits of `a` followed by the bits of `b` accumulate to the value of
      `a` plus the value of `b` shifted past `a`. */
  lemma {:induction false} FromLsbFirstAppend(a: seq<bool>, b: seq<bool>)
    ensures FromLsbFirst(a + b) == FromLsbFirst(a) + Pow2(|a|) * FromLsbFirst(b)
  {
    if a != [] {
      assert (a + b)[1..] == a[1..] + b;
      FromLsbFirstAppend(a[1..], b);
      var p, y, z := Pow2(|a| - 1), FromLsbFirst(b), FromLsbFirst(a[1..]);
      assert FromLsbFirst(a + b) == BitValue(a[0]) + 2 * (z + p * y);
      var w := p * y;
      assert (2 * p) * y == 2 * w by { Double(p, y); }
    } else {
      assert a + b == b;
    }
  }

  /** A word that fits in `n` bits is the accumulation of its `n` bits. */
  lemma FromLsbFirstOfLsbBits(x: nat, n: nat)
    requires x < Pow2(n)
    ensures FromLsbFirst(LsbBits(x, n)) == x
  {
    LsbFirstRoundTrip(x, n);
    SmallMod(x, Pow2(n));
  }

  /** Reducing a word modulo `Pow2(n)` keeps its low `n` bits. */
  lemma {:induction false} LsbBitsMod(x: nat, n: nat, k: nat)
    requires k <= n
    ensures LsbBits(x % Pow2(n), k) == LsbBits(x, k)
  {
    if k > 0 {
      DivModStep(x, Pow2(n - 1));
      LsbBitsMod(x / 2, n - 1, k - 1);
    }
  }

  function Zeros(n: nat): (z: seq<bool>)
    ensures |z| == n && forall i :: 0 <= i < n ==> !z[i]
  {
    seq(n, _ => false)
  }

  /** Bits of a word scaled by `Pow2(k)`: `k` zeros, then the word's bits. */
  lemma {:induction false} LsbBitsScaled(x: nat, k: nat, n: nat)
    requires k <= n
    ensures LsbBits(x * Pow2(k), n) == Zeros(k) + LsbBits(x, n - k)
  {
    if k > 0 {
      assert x * Pow2(k) == 2 * (x * Pow2(k - 1));
      LsbBitsScaled(x, k - 1, n - 1);
      assert Zeros(k) == [false] + Zeros(k - 1);
    }
  }

  /** Dropping `k` low bits divides by `Pow2(k)`. */
  lemma {:induction false} LsbBitsDrop(x: nat, n: nat, k: nat)
    requires k <= n
    ensures LsbBits(x, n)[k..] == LsbBits(x / Pow2(k), n - k)
  {
    if k > 0 {
      LsbBitsDrop(x / 2, n - 1, k - 1);
      DivModStep(x, Pow2(k - 1));
      assert LsbBits(x, n)[k..] == LsbBits(x / 2, n - 1)[k - 1..];
    }
  }

  lemma {:induction false} LsbBitsTake(x: nat, n: nat, k: nat)
    requires k <= n
    ensures LsbBits(x, n)[..k] == LsbBits(x, k)
  {
    if k > 0 {
      LsbBitsTake(x / 2, n - 1, k - 1);
    }
  }

  lemma {:induction false} LsbBitsZero(x: nat, n: nat)
    requires x == 0
    ensures LsbBits(x, n) == Zeros(n)
  {
    if n > 0 {
      LsbBitsZero(0, n - 1);
      assert Zeros(n) == [false] + Zeros(n - 1);
    }
  }

  lemma {:induction false} ZerosFromLsbFirst(n: nat)
    ensures FromLsbFirst(Zeros(n)) == 0
  {
    if n > 0 {
      assert Zeros(n)[1..] == Zeros(n - 1);
      ZerosFromLsbFirst(n - 1);
    }
  }

  /** A bit sequence accumulates to zero exactly when no bit is set. */
  lemma FromLsbFirstZero(bits: seq<bool>)
    ensures FromLsbFirst(bits) == 0 <==> bits == Zeros(|bits|)
  {
    LsbBitsOfFromLsbFirst(bits);
    ZerosFromLsbFirst(|bits|);
    if FromLsbFirst(bits) == 0 {
      LsbBitsZero(0, |bits|);
    }
  }

  // ---------------------------------------------------------------------
  // Bitwise operations on 64-bit words

  function AndBits(a: seq<bool>, b: seq<bool>): (r: seq<bool>)
    requires |a| == |b|
    ensures |r| == |a| && forall i :: 0 <= i < |a| ==> r[i] == (a[i] && b[i])
  {
    seq(|a|, i requires 0 <= i < |a| => a[i] && b[i])
  }

  function OrBits(a: seq<bool>, b: seq<bool>): (r: seq<bool>)
    requires |a| == |b|
    ensures |r| == |a| && forall i :: 0 <= i < |a| ==> r[i] == (a[i] || b[i])
  {
    seq(|a|, i requires 0 <= i < |a| => a[i] || b[i])
  }

  /** `x & y` on 64-bit words. */
  function And64(x: nat, y: nat): (r: nat)
    ensures IsWord(r)
    ensures LsbBits(r, 64) == AndBits(LsbBits(x, 64), LsbBits(y, 64))
  {
    var bits := AndBits(LsbBits(x, 64), LsbBits(y, 64));
    LsbBitsOfFromLsbFirst(bits);
    FromLsbFirst(bits)
  }

  /** `x | y` on 64-bit words. */
  function Or64(x: nat, y: nat): (r: nat)
    ensures IsWord(r)
    ensures LsbBits(r, 64) == OrBits(LsbBits(x, 64), LsbBits(y, 64))
  {
    var bits := OrBits(LsbBits(x, 64), LsbBits(y, 64));
    LsbBitsOfFromLsbFirst(bits);
    FromLsbFirst(bits)
  }

  /** `x << k` on 64-bit words: the bits shifted past bit 63 are lost. */
  function Shl64(x: nat, k: nat): (r: nat)
    requires k <= 64
    ensures IsWord(r)
    ensures LsbBits(r, 64) == Zeros(k) + LsbBits(x, 64 - k)
  {
    LsbBitsMod(x * Pow2(k), 64, 64);
    LsbBitsScaled(x, k, 64);
    (x * Pow2(k)) % Pow2(64)
  }

  /** Two words with the same 64 bits are equal. */
  lemma WordExt(x: nat, y: nat)
    requires IsWord(x) && IsWord(y) && LsbBits(x, 64) == LsbBits(y, 64)
    ensures x == y
  {
    FromLsbFirstOfLsbBits(x, 64);
    FromLsbFirstOfLsbBits(y, 64);
  }

  /** Number of set bits, counted the way a loop that tests the low bit and
      shifts right until the word is zero counts them. */
  function Ones(x: nat): nat
    decreases x
  {
    if x == 0 then 0 else x % 2 + Ones(x / 2)
  }

  lemma {:induction false} OnesBound(x: nat, n: nat)
    requires x < Pow2(n)
    ensures Ones(x) <= n
  {
    if x > 0 {
      OnesBound(x / 2, n - 1);
    }
  }

  // ---------------------------------------------------------------------
  // Bit-field members of an `n`-bit word (a C bit-field, or a field that
  // `setBits` writes)

  /** A field `width` bits wide starting at bit `offset`. */
  datatype Field = Field(offset: nat, width: nat) {
    predicate Valid(n: nat) { 0 < width && offset + width <= n }
    predicate DisjointFrom(g: Field) {
      offset + width <= g.offset || g.offset + g.width <= offset
    }
    /** Every value the field can hold is below this bound. */
    function Limit(): nat { Pow2(width) }
  }

  /** Reading a field of an `n`-bit word. */
  function GetField(x: nat, n: nat, f: Field): (v: nat)
    requires f.Valid(n)
    ensures v < f.Limit()
  {
    FromLsbFirst(LsbBits(x, n)[f.offset .. f.offset + f.width])
  }

  /** Assigning a field of an `n`-bit word: the value is truncated to the
      field's width and every other bit of the word is kept. */
  function SetField(x: nat, n: nat, f: Field, v: nat): (r: nat)
    requires f.Valid(n)
    ensures r < Pow2(n)
  {
    var bits := LsbBits(x, n);
    FromLsbFirst(bits[..f.offset] + LsbBits(v, f.width) + bits[f.offset + f.width ..])
  }

  /** The bits of an assigned word: the field's bits are those of `v`, the
      others those of `x`. */
  lemma SetFieldBits(x: nat, n: nat, f: Field, v: nat)
    requires f.Valid(n)
    ensures LsbBits(SetField(x, n, f, v), n) ==
      LsbBits(x, n)[..f.offset] + LsbBits(v, f.width) + LsbBits(x, n)[f.offset + f.width ..]
  {
    var bits := LsbBits(x, n);
    LsbBitsOfFromLsbFirst(bits[..f.offset] + LsbBits(v, f.width) + bits[f.offset + f.width ..]);
  }

  /** A field reads back what was assigned to it, truncated to its width. */
  lemma GetSetField(x: nat, n: nat, f: Field, v: nat)
    requires f.Valid(n)
    ensures GetField(SetField(x, n, f, v), n, f) == v % f.Limit()
  {
    var s := LsbBits(SetField(x, n, f, v), n);
    SetFieldBits(x, n, f, v);
    assert s[f.offset .. f.offset + f.width] == LsbBits(v, f.width);
    LsbFirstRoundTrip(v, f.width);
  }

  /** A value the field can hold reads back unchanged. */
  lemma GetSetFieldFits(x: nat, n: nat, f: Field, v: nat)
    requires f.Valid(n) && v < f.Limit()
    ensures GetField(SetField(x, n, f, v), n, f) == v
  {
    GetSetField(x, n, f, v);
    SmallMod(v, f.Limit());
  }

  /** Assigning a field the value it already holds leaves the word as it is. */
  lemma SetFieldSame(x: nat, n: nat, f: Field)
    requires f.Valid(n) && x < Pow2(n)
    ensures SetField(x, n, f, GetField(x, n, f)) == x
  {
    var bits := LsbBits(x, n);
    var (lo, hi) := (f.offset, f.offset + f.width);
    LsbBitsOfFromLsbFirst(bits[lo..hi]);
    SpliceSame(bits, lo, hi);
    FromLsbFirstOfLsbBits(x, n);
  }

  /** A sequence cut in three and put back together is itself. */
  lemma SpliceSame(a: seq<bool>, lo: nat, hi: nat)
    requires lo <= hi <= |a|
    ensures a[..lo] + a[lo..hi] + a[hi..] == a
  {
    assert a[..lo] + a[lo..hi] == a[..hi];
  }

  /** Outside the range it replaces, a splice holds the original bits. */
  lemma SpliceAt(a: seq<bool>, mid: seq<bool>, lo: nat, hi: nat, i: nat)
    requires lo <= hi <= |a| && |mid| == hi - lo && i < |a| && (i < lo || hi <= i)
    ensures (a[..lo] + mid + a[hi..])[i] == a[i]
  {
    if i >= hi {
      assert (a[..lo] + mid + a[hi..])[i] == a[hi..][i - hi];
    }
  }

  /** Assigning one field leaves a disjoint field unchanged. */
  lemma GetSetOtherField(x: nat, n: nat, f: Field, g: Field, v: nat)
    requires f.Valid(n) && g.Valid(n) && f.DisjointFrom(g)
    ensures GetField(SetField(x, n, f, v), n, g) == GetField(x, n, g)
  {
    var bits := LsbBits(x, n);
    var s := LsbBits(SetField(x, n, f, v), n);
    SetFieldBits(x, n, f, v);
    var (go, ge) := (g.offset, g.offset + g.width);
    forall i | go <= i < ge
      ensures s[i] == bits[i]
    {
      SpliceAt(bits, LsbBits(v, f.width), f.offset, f.offset + f.width, i);
    }
    assert s[go..ge] == bits[go..ge];
  }

  /** Reading a field is shifting right by its offset and masking to its width. */
  lemma GetFieldShiftMask(x: nat, n: nat, f: Field)
    requires f.Valid(n)
    ensures GetField(x, n, f) == (x / Pow2(f.offset)) % Pow2(f.width)
  {
    var y := x / Pow2(f.offset);
    LsbBitsDrop(x, n, f.offset);
    LsbBitsTake(y, n - f.offset, f.width);
    assert LsbBits(x, n)[f.offset .. f.offset + f.width] == LsbBits(y, n - f.offset)[..f.width];
    LsbFirstRoundTrip(y, f.width);
  }

  // ---------------------------------------------------------------------
  // Byte arrays as bit streams

  /** The bits of a byte sequence; the bytes go in order and each byte's
      bits in the given order. */
  function BytesBits(bs: seq<uint8>, msbFirst: bool): (bits: seq<bool>)
    ensures |bits| == 8 * |bs|
  {
    if bs == [] then [] else WordBits(bs[0], 8, msbFirst) + BytesBits(bs[1..], msbFirst)
  }

  /** Eight received bits accumulated into a byte. */
  function ByteOf(bits: seq<bool>, msbFirst: bool): uint8
    requires |bits| == 8
  {
    assert Pow2(8) == 256;
    FromBits(bits, msbFirst)
  }

  /** Received bits grouped in eights, each group accumulated into a byte. */
  function BitsBytes(bits: seq<bool>, msbFirst: bool): (bs: seq<uint8>)
    requires |bits| % 8 == 0
    ensures 8 * |bs| == |bits|
  {
    if bits == [] then [] else [ByteOf(bits[..8], msbFirst)] + BitsBytes(bits[8..], msbFirst)
  }

  lemma ByteRoundTrip(b: uint8, msbFirst: bool)
    ensures ByteOf(WordBits(b, 8, msbFirst), msbFirst) == b
  {
    WordRoundTrip(b, 8, msbFirst);
    assert Pow2(8) == 256;
    SmallMod(b, 256);
  }

  /** Sending bytes as bits and grouping the bits back gives the bytes. */
  lemma {:induction false} BytesRoundTrip(bs: seq<uint8>, msbFirst: bool)
    ensures BitsBytes(BytesBits(bs, msbFirst), msbFirst) == bs
  {
    if bs != [] {
      var bits := BytesBits(bs, msbFirst);
      assert bits[..8] == WordBits(bs[0], 8, msbFirst);
      assert bits[8..] == BytesBits(bs[1..], msbFirst);
      ByteRoundTrip(bs[0], msbFirst);
      BytesRoundTrip(bs[1..], msbFirst);
      assert BitsBytes(bits, msbFirst) == [bs[0]] + bs[1..];
    }
  }

  lemma {:induction false} BytesBitsAppend(a: seq<uint8>, b: seq<uint8>, msbFirst: bool)
    ensures BytesBits(a + b, msbFirst) == BytesBits(a, msbFirst) + BytesBits(b, msbFirst)
  {
    if a == [] {
      assert a + b == b;
    } else {
      assert (a + b)[1..] == a[1..] + b;
      BytesBitsAppend(a[1..], b, msbFirst);
    }
  }
}
