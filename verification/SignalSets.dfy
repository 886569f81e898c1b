/** The signal-set functions of libmini.c on a 64-bit word. */
module SignalSets {
  import opened Words

  const ALL_ONES: Word := 0xffff_ffff_ffff_ffff

  type Signal = s: int | 1 <= s <= 64 witness 1

  /** 1UL << (signum - 1) */
  function SigMask(signum: Signal): nat {
    Pow2(signum - 1)
  }

  function Complement(w: Word): Word {
    ALL_ONES - w
  }

  // ----- bits of the operations -----

  lemma {:induction false} BitOr(a: nat, b: nat, i: nat)
    ensures Bit(Or(a, b), i) <==> Bit(a, i) || Bit(b, i)
    decreases i
  {
    if a == 0 {
      BitZero(i);
    } else if b == 0 {
      BitZero(i);
    } else if i != 0 {
      BitOr(a / 2, b / 2, i - 1);
    }
  }

  lemma {:induction false} BitAnd(a: nat, b: nat, i: nat)
    ensures Bit(And(a, b), i) <==> Bit(a, i) && Bit(b, i)
    decreases i
  {
    if a == 0 || b == 0 {
      BitZero(i);
    } else if i != 0 {
      BitAnd(a / 2, b / 2, i - 1);
    }
  }

  lemma {:induction false} BitZero(i: nat)
    ensures !Bit(0, i)
  {
    if i != 0 {
      BitZero(i - 1);
    }
  }

  lemma {:induction false} BitPow2(k: nat, i: nat)
    ensures Bit(Pow2(k), i) <==> k == i
    decreases k
  {
    if k == 0 {
      if i != 0 {
        BitZero(i - 1);
      }
    } else if i != 0 {
      BitPow2(k - 1, i - 1);
    }
  }

  /** Taking w from a word of n ones flips its low n bits. */
  lemma {:induction false} BitFlip(w: nat, n: nat, i: nat)
    requires w < Pow2(n) && i < n
    ensures Bit(Pow2(n) - 1 - w, i) <==> !Bit(w, i)
    decreases i
  {
    var f := Pow2(n) - 1 - w;
    assert Pow2(n) == 2 * Pow2(n - 1);
    if i != 0 {
      assert f / 2 == Pow2(n - 1) - 1 - w / 2;
      BitFlip(w / 2, n - 1, i - 1);
    }
  }

  lemma {:induction false} OrBound(a: nat, b: nat, n: nat)
    requires a < Pow2(n) && b < Pow2(n)
    ensures Or(a, b) < Pow2(n)
    decreases n
  {
    if n != 0 && a != 0 && b != 0 {
      OrBound(a / 2, b / 2, n - 1);
    }
  }

  lemma {:induction false} AndBound(a: nat, b: nat, n: nat)
    requires a < Pow2(n)
    ensures And(a, b) < Pow2(n)
    decreases n
  {
    if n != 0 && a != 0 && b != 0 {
      AndBound(a / 2, b / 2, n - 1);
    }
  }

  lemma {:induction false} Pow2Grows(k: nat, n: nat)
    requires k < n
    ensures Pow2(k) < Pow2(n)
    decreases n
  {
    if k + 1 < n {
      Pow2Grows(k, n - 1);
    }
  }

  function ShiftRight(w: nat, k: nat): nat
    decreases k
  {
    if k == 0 then w else ShiftRight(w / 2, k - 1)
  }

  lemma {:induction false} ShiftedBit(w: nat, k: nat)
    ensures And(1, ShiftRight(w, k)) == if Bit(w, k) then 1 else 0
    decreases k
  {
    if k != 0 {
      ShiftedBit(w / 2, k - 1);
    }
  }

  // ----- the set a word stands for -----

  predicate Has(w: Word, x: Signal) {
    Bit(w, x - 1)
  }

  function Members(w: Word): (s: set<Signal>)
    ensures forall x: Signal :: x in s <==> Has(w, x)
  {
    set x: Signal | 1 <= x <= 64 && Has(w, x)
  }

  const EVERY: set<Signal> := set x: Signal | 1 <= x <= 64

  lemma MaskBit(signum: Signal, x: Signal)
    ensures SigMask(signum) < TWO64
    ensures Bit(SigMask(signum), x - 1) <==> x == signum
    ensures Bit(Complement(SigMask(signum)), x - 1) <==> x != signum
  {
    Pow2Of64();
    Pow2Grows(signum - 1, 64);
    BitPow2(signum - 1, x - 1);
    BitFlip(SigMask(signum), 64, x - 1);
  }

  /** sig[0] |= sigmask(signum) */
  function WithSignal(w: Word, signum: Signal): (r: Word)
    ensures Members(r) == Members(w) + {signum}
  {
    Pow2Of64();
    MaskBit(signum, 1);
    OrBound(w, SigMask(signum), 64);
    var r := Or(w, SigMask(signum));
    assert forall x: Signal :: Has(r, x) <==> Has(w, x) || x == signum by {
      forall x: Signal ensures Has(r, x) <==> Has(w, x) || x == signum {
        BitOr(w, SigMask(signum), x - 1);
        MaskBit(signum, x);
      }
    }
    r
  }

  /** sig[0] &= ~sigmask(signum) */
  function WithoutSignal(w: Word, signum: Signal): (r: Word)
    ensures Members(r) == Members(w) - {signum}
  {
    Pow2Of64();
    MaskBit(signum, 1);
    AndBound(w, Complement(SigMask(signum)), 64);
    var r := And(w, Complement(SigMask(signum)));
    assert forall x: Signal :: Has(r, x) <==> Has(w, x) && x != signum by {
      forall x: Signal ensures Has(r, x) <==> Has(w, x) && x != signum {
        BitAnd(w, Complement(SigMask(signum)), x - 1);
        MaskBit(signum, x);
      }
    }
    r
  }

  // ----- the functions, on a sigset_t in memory -----

  /** The word a sigset_t holds. */
  ghost function SigWord(s: array<Byte>): Word
    requires s.Length == 8
    reads s
  {
    assert Pow256(8) == TWO64;
    Load(s[..], 0, 8)
  }

  ghost function SigSet(s: array<Byte>): set<Signal>
    requires s.Length == 8
    reads s
  {
    Members(SigWord(s))
  }

  /** Each byte is c as a char: c modulo 256. */
  method Memset(s: array<Byte>, c: int, n: nat)
    requires n <= s.Length
    modifies s
    ensures forall k :: 0 <= k < s.Length ==> s[k] == if k < n then c % 256 else old(s[k])
  {
    var left, src := n, 0;
    while left != 0
      invariant src + left == n
      invariant forall k :: 0 <= k < s.Length ==> s[k] == if k < src then c % 256 else old(s[k])
      decreases left
    {
      left := left - 1;
      s[src] := c % 256;
      src := src + 1;
    }
  }

  lemma {:induction false} RepeatedByte(bs: Mem, full: bool)
    requires forall k :: 0 <= k < |bs| ==> bs[k] == if full then 255 else 0
    ensures FromLE(bs) == if full then Pow256(|bs|) - 1 else 0
  {
    if bs != [] {
      RepeatedByte(bs[1..], full);
    }
  }

  lemma MembersOfExtremes()
    ensures Members(0) == {} && Members(ALL_ONES) == EVERY
  {
    forall x: Signal ensures !Has(0, x) && Has(ALL_ONES, x) {
      BitZero(x - 1);
      Pow2Of64();
      BitFlip(0, 64, x - 1);
    }
  }

  method StoreWord(s: array<Byte>, w: Word)
    requires s.Length == 8
    modifies s
    ensures SigWord(s) == w
  {
    assert Pow256(8) == TWO64;
    ghost var was := s[..];
    StoreBytes(s, 0, w);
    LoadStored(was, 0, 8, w);
  }

  method SigEmptySet(s: array<Byte>) returns (r: int)
    requires s.Length == 8
    modifies s
    ensures r == 0 && SigSet(s) == {}
  {
    Memset(s, 0, 8);
    RepeatedByte(s[..][0..8], false);
    MembersOfExtremes();
    r := 0;
  }

  method SigFillSet(s: array<Byte>) returns (r: int)
    requires s.Length == 8
    modifies s
    ensures r == 0 && SigSet(s) == EVERY
  {
    Memset(s, 0xff, 8);
    RepeatedByte(s[..][0..8], true);
    assert Pow256(8) == TWO64;
    MembersOfExtremes();
    r := 0;
  }

  method SigAddSet(s: array<Byte>, signum: Signal) returns (r: int)
    requires s.Length == 8
    modifies s
    ensures r == 0 && SigSet(s) == old(SigSet(s)) + {signum}
  {
    assert Pow256(8) == TWO64;
    StoreWord(s, WithSignal(Load(s[..], 0, 8), signum));
    r := 0;
  }

  method SigDelSet(s: array<Byte>, signum: Signal) returns (r: int)
    requires s.Length == 8
    modifies s
    ensures r == 0 && SigSet(s) == old(SigSet(s)) - {signum}
  {
    assert Pow256(8) == TWO64;
    StoreWord(s, WithoutSignal(Load(s[..], 0, 8), signum));
    r := 0;
  }

  method SigIsMember(s: array<Byte>, signum: Signal) returns (r: int)
    requires s.Length == 8
    ensures r == if signum in SigSet(s) then 1 else 0
  {
    var w := Load(s[..], 0, 8);
    assert Pow256(8) == TWO64;
    ShiftedBit(w, signum - 1);
    r := And(1, ShiftRight(w, signum - 1));
  }

  // ----- sequences of operations -----

  datatype Op = Empty | Fill | Add(signum: Signal) | Del(signum: Signal)

  function OnSet(op: Op, s: set<Signal>): set<Signal> {
    match op
    case Empty => {}
    case Fill => EVERY
    case Add(x) => s + {x}
    case Del(x) => s - {x}
  }

  function OnSets(ops: seq<Op>, s: set<Signal>): set<Signal> {
    if ops == [] then s else OnSets(ops[1..], OnSet(ops[0], s))
  }

  /** Any sequence of operations on a sigset_t is that sequence on a finite set. */
  method Perform(s: array<Byte>, ops: seq<Op>)
    requires s.Length == 8
    modifies s
    ensures SigSet(s) == OnSets(ops, old(SigSet(s)))
  {
    for i := 0 to |ops|
      invariant OnSets(ops[i..], SigSet(s)) == OnSets(ops, old(SigSet(s)))
    {
      assert ops[i..][0] == ops[i] && ops[i..][1..] == ops[i + 1..];
      match ops[i]
      case Empty => var _ := SigEmptySet(s);
      case Fill => var _ := SigFillSet(s);
      case Add(x) => var _ := SigAddSet(s, x);
      case Del(x) => var _ := SigDelSet(s, x);
    }
  }
}
