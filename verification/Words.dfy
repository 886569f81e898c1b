/** Little-endian words over byte sequences, and the bit operations C applies to them. */
module Words {

  type Byte = b: int | 0 <= b < 256

  const TWO32: int := 0x1_0000_0000
  const TWO64: int := 0x1_0000_0000_0000_0000

  type Word = w: int | 0 <= w < TWO64

  type Mem = seq<Byte>

  // ----- bytes of a number -----

  function Pow256(n: nat): (p: nat)
    ensures 0 < p
  {
    if n == 0 then 1 else 256 * Pow256(n - 1)
  }

  /** Byte i of v, least significant first. */
  function ByteOf(v: nat, i: nat): Byte
    decreases i
  {
    if i == 0 then v % 256 else ByteOf(v / 256, i - 1)
  }

  function ToLE(v: nat, n: nat): (bs: Mem)
    ensures |bs| == n
  {
    seq(n, i requires 0 <= i < n => ByteOf(v, i))
  }

  function FromLE(bs: Mem): (v: nat)
    ensures v < Pow256(|bs|)
  {
    if bs == [] then 0 else bs[0] + 256 * FromLE(bs[1..])
  }

  lemma {:induction false} DecodeEncode(v: nat, n: nat)
    requires v < Pow256(n)
    ensures FromLE(ToLE(v, n)) == v
  {
    if n != 0 {
      assert ToLE(v, n)[1..] == ToLE(v / 256, n - 1);
      DecodeEncode(v / 256, n - 1);
    }
  }

  lemma {:induction false} DecodedByte(bs: Mem, i: nat)
    requires i < |bs|
    ensures ByteOf(FromLE(bs), i) == bs[i]
  {
    if i != 0 {
      assert FromLE(bs) / 256 == FromLE(bs[1..]);
      DecodedByte(bs[1..], i - 1);
    }
  }

  // ----- memory -----

  /** The n-byte number stored at offset a. */
  function Load(m: Mem, a: nat, n: nat): (v: nat)
    requires a + n <= |m|
    ensures v < Pow256(n)
  {
    FromLE(m[a..a + n])
  }

  function Store(m: Mem, a: nat, n: nat, v: nat): (r: Mem)
    requires a + n <= |m|
    ensures |r| == |m|
    ensures forall k :: 0 <= k < |m| ==> r[k] == if a <= k < a + n then ByteOf(v, k - a) else m[k]
  {
    m[..a] + ToLE(v, n) + m[a + n..]
  }

  lemma LoadStored(m: Mem, a: nat, n: nat, v: nat)
    requires a + n <= |m| && v < Pow256(n)
    ensures Load(Store(m, a, n, v), a, n) == v
  {
    assert Store(m, a, n, v)[a..a + n] == ToLE(v, n);
    DecodeEncode(v, n);
  }

  lemma LoadElsewhere(m: Mem, a: nat, n: nat, v: nat, b: nat, k: nat)
    requires a + n <= |m| && b + k <= |m|
    requires b + k <= a || a + n <= b
    ensures Load(Store(m, a, n, v), b, k) == Load(m, b, k)
  {
    assert Store(m, a, n, v)[b..b + k] == m[b..b + k];
  }

  /** Two memories that agree on a range load the same number from it. */
  lemma LoadSame(m: Mem, m': Mem, a: nat, n: nat)
    requires a + n <= |m| && a + n <= |m'|
    requires forall k :: a <= k < a + n ==> m[k] == m'[k]
    ensures Load(m, a, n) == Load(m', a, n)
  {
    assert m[a..a + n] == m'[a..a + n];
  }

  /** Every byte outside [lo, hi) is the same in both. */
  ghost predicate SameOutside(a: Mem, b: Mem, lo: int, hi: int) {
    |a| == |b| && forall k {:trigger b[k]} :: 0 <= k < |a| && !(lo <= k < hi) ==> a[k] == b[k]
  }

  lemma StoreOutside(m: Mem, a: nat, n: nat, v: nat, lo: int, hi: int)
    requires a + n <= |m| && lo <= a && a + n <= hi
    ensures SameOutside(m, Store(m, a, n, v), lo, hi)
  {
  }

  lemma OutsideJoin(a: Mem, b: Mem, c: Mem, lo: int, hi: int, lo': int, hi': int)
    requires SameOutside(a, b, lo, hi) && SameOutside(b, c, lo', hi')
    ensures SameOutside(a, c, if lo < lo' then lo else lo', if hi < hi' then hi' else hi)
  {
  }

  lemma LoadOutside(a: Mem, b: Mem, lo: int, hi: int, x: nat, n: nat)
    requires SameOutside(a, b, lo, hi) && x + n <= |a| && (x + n <= lo || hi <= x)
    ensures Load(b, x, n) == Load(a, x, n)
  {
    LoadSame(a, b, x, n);
  }

  /** A word written into a buffer byte by byte. */
  method StoreBytes(mem: array<Byte>, a: nat, w: nat)
    requires a + 8 <= mem.Length
    modifies mem
    ensures mem[..] == Store(old(mem[..]), a, 8, w)
  {
    ghost var was := mem[..];
    for i := 0 to 8
      invariant forall k :: 0 <= k < mem.Length ==> mem[k] == if a <= k < a + i then ByteOf(w, k - a) else was[k]
    {
      mem[a + i] := ByteOf(w, i);
    }
    assert mem[..] == Store(was, a, 8, w);
  }

  // ----- bits -----

  function Count(b: bool): nat {
    if b then 1 else 0
  }

  function Pow2(k: nat): (p: nat)
    ensures 0 < p
  {
    if k == 0 then 1 else 2 * Pow2(k - 1)
  }

  lemma Pow2Of64()
    ensures Pow2(64) == TWO64
  {
    assert Pow2(8) == 0x100;
    assert Pow2(16) == 0x1_0000;
    assert Pow2(24) == 0x100_0000;
    assert Pow2(32) == 0x1_0000_0000;
    assert Pow2(40) == 0x100_0000_0000;
    assert Pow2(48) == 0x1_0000_0000_0000;
    assert Pow2(56) == 0x100_0000_0000_0000;
  }

  predicate Bit(w: nat, i: nat)
    decreases i
  {
    if i == 0 then w % 2 == 1 else Bit(w / 2, i - 1)
  }

  function Or(a: nat, b: nat): nat
  {
    if a == 0 then b
    else if b == 0 then a
    else (if a % 2 == 1 || b % 2 == 1 then 1 else 0) + 2 * Or(a / 2, b / 2)
  }

  function And(a: nat, b: nat): nat
  {
    if a == 0 || b == 0 then 0
    else (if a % 2 == 1 && b % 2 == 1 then 1 else 0) + 2 * And(a / 2, b / 2)
  }

  /** Or with bits that are clear on the other side adds. */
  lemma {:induction false} OrDisjoint(a: nat, b: nat, k: nat)
    requires b < Pow2(k)
    ensures Or(a * Pow2(k), b) == a * Pow2(k) + b
  {
    if k != 0 {
      var A := a * Pow2(k - 1);
      assert a * Pow2(k) == 2 * A;
      OrDisjoint(a, b / 2, k - 1);
    }
  }

  // ----- the two ways a tracer rewrites the low byte of a word -----

  /** (code & 0xffffffffffffff00) | b for any b. */
  function WithLow(code: Word, b: nat): nat
  {
    Or(code - code % 256, b)
  }

  /** What peek, replace the low byte, poke leaves behind. */
  function PatchLow(m: Mem, a: nat, b: nat): (r: Mem)
    requires a + 8 <= |m|
    ensures |r| == |m|
  {
    assert Pow256(8) == TWO64;
    Store(m, a, 8, WithLow(Load(m, a, 8), b))
  }

  lemma WithLowReplaces(code: Word, b: Byte)
    ensures WithLow(code, b) == code - code % 256 + b
  {
    assert Pow2(8) == 256;
    hide Or;
    OrDisjoint(code / 256, b, 8);
  }

  lemma LowByteReplaced(bs: Mem, b: Byte)
    requires |bs| == 8
    ensures FromLE(bs) < TWO64 && FromLE(bs) % 256 == bs[0]
    ensures WithLow(FromLE(bs), b) == FromLE(bs[0 := b]) < TWO64
  {
    hide Or, WithLow;
    assert Pow256(8) == TWO64;
    WithLowReplaces(FromLE(bs), b);
    assert bs[0 := b][1..] == bs[1..];
  }

  /** Reading a word, replacing its low byte and writing it back changes exactly one byte. */
  lemma PatchIsByteUpdate(m: Mem, a: nat, b: Byte)
    requires a + 8 <= |m|
    ensures Load(m, a, 8) < TWO64
    ensures Load(m, a, 8) % 256 == m[a]
    ensures WithLow(Load(m, a, 8), b) < TWO64
    ensures PatchLow(m, a, b) == m[a := b]
  {
    hide WithLow, FromLE, Pow256;
    var new8 := m[a..a + 8][0 := b];
    LowByteReplaced(m[a..a + 8], b);
    forall j | 0 <= j < 8 ensures ByteOf(FromLE(new8), j) == new8[j] {
      DecodedByte(new8, j);
    }
    assert PatchLow(m, a, b) == Store(m, a, 8, FromLE(new8));
  }
}
