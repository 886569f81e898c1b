/** bubble.asm: nested loops of jumps over an array in memory, for any length. */
module Bubble {
  import opened Words
  import opened Machine
  import opened Stepping
  import opened Processors
  import opened BubbleSorting

  const BASE: nat := 0x600000
  const INLOOP: nat := 2
  const CHECK: nat := 6
  const EXCH: nat := 13
  const EXITIN: nat := 16
  const EXITOUT: nat := 20

  /** Array lengths whose cells lie below 2^32; the program compares neighbours, so it needs
      two cells at least. */
  type Length = n: nat | 2 <= n && 0x600000 + 4 * n < TWO32 witness 10

  /** The program, with n - 1 for the file's 9. */
  function Code(n: Length): seq<Instr> {
    [
      Mov32RI(RCX, 0),
      Mov32RI(RDX, 0),                    // 1: outloop
      Mov32RM(RAX, Cell(0x600000, RDX)),  // 2: inloop
      Mov32RM(RBX, Cell(0x600004, RDX)),
      Cmp32RR(RAX, RBX),
      Jg(13),
      Inc32(RDX),                         // 6: check
      Mov32RR(RAX, RCX),
      Neg32(RAX),
      Add32RI(RAX, n - 1),
      Cmp32RR(RDX, RAX),
      Jge(16),
      Jmp(2),
      Mov32MR(Cell(0x600000, RDX), RBX),  // 13: exch
      Mov32MR(Cell(0x600004, RDX), RAX),
      Jmp(6),
      Inc32(RCX),                         // 16: exitin
      Cmp32RI(RCX, n - 1),
      Jge(20),
      Jmp(1)
    ]
  }

  lemma CodeInner(n: Length)
    ensures |Code(n)| == 20
    ensures Code(n)[2] == Mov32RM(RAX, Cell(0x600000, RDX))
    ensures Code(n)[3] == Mov32RM(RBX, Cell(0x600004, RDX))
    ensures Code(n)[4] == Cmp32RR(RAX, RBX) && Code(n)[5] == Jg(13)
    ensures Code(n)[13] == Mov32MR(Cell(0x600000, RDX), RBX)
    ensures Code(n)[14] == Mov32MR(Cell(0x600004, RDX), RAX) && Code(n)[15] == Jmp(6)
  {
  }

  lemma CodeCheck(n: Length)
    ensures |Code(n)| == 20
    ensures Code(n)[6] == Inc32(RDX) && Code(n)[7] == Mov32RR(RAX, RCX)
    ensures Code(n)[8] == Neg32(RAX) && Code(n)[9] == Add32RI(RAX, n - 1)
    ensures Code(n)[10] == Cmp32RR(RDX, RAX) && Code(n)[11] == Jge(16) && Code(n)[12] == Jmp(2)
  {
  }

  lemma CodeOuter(n: Length)
    ensures |Code(n)| == 20
    ensures Code(n)[0] == Mov32RI(RCX, 0) && Code(n)[1] == Mov32RI(RDX, 0)
    ensures Code(n)[16] == Inc32(RCX) && Code(n)[17] == Cmp32RI(RCX, n - 1)
    ensures Code(n)[18] == Jge(20) && Code(n)[19] == Jmp(1)
  {
  }

  // ----- the array -----

  predicate Fits(m: Mem, n: Length) {
    BASE + 4 * n <= |m|
  }

  /** The n cells as signed integers. */
  function Values(m: Mem, n: nat): (a: seq<int>)
    requires BASE + 4 * n <= |m|
    ensures |a| == n
  {
    seq(n, k requires 0 <= k < n => Signed32(Read32(m, BASE + 4 * k)))
  }

  /** The n cells as they are stored. */
  function Cells(m: Mem, n: nat): (a: seq<int>)
    requires BASE + 4 * n <= |m|
    ensures |a| == n && forall k :: 0 <= k < n ==> 0 <= a[k] < TWO32
  {
    seq(n, k requires 0 <= k < n => Read32(m, BASE + 4 * k))
  }

  /** Two's complement order, bit by bit: words with the top bit set come first, and among words
      with the same top bit the smaller one. */
  ghost predicate InSignedOrder(a: seq<int>) {
    forall x, y :: 0 <= x < y < |a| ==>
      (a[x] >= 0x8000_0000 && a[y] < 0x8000_0000) ||
      ((a[x] >= 0x8000_0000 <==> a[y] >= 0x8000_0000) && a[x] <= a[y])
  }

  /** What ascending values say of the cells. */
  lemma CellsInOrder(m: Mem, n: Length)
    requires Fits(m, n) && Ascending(Values(m, n))
    ensures InSignedOrder(Cells(m, n))
  {
    hide Load, Read32;
    var v, a := Values(m, n), Cells(m, n);
    forall x, y | 0 <= x < y < n
      ensures (a[x] >= 0x8000_0000 && a[y] < 0x8000_0000) ||
        ((a[x] >= 0x8000_0000 <==> a[y] >= 0x8000_0000) && a[x] <= a[y])
    {
      assert v[x] == Signed32(a[x]) && v[y] == Signed32(a[y]) && v[x] <= v[y];
    }
  }

  /** A word occurs as often as its value. */
  lemma {:induction false} SameCount(a: seq<int>, v: seq<int>, w: int)
    requires |a| == |v| && 0 <= w < TWO32
    requires forall k :: 0 <= k < |a| ==> 0 <= a[k] < TWO32 && v[k] == Signed32(a[k])
    ensures multiset(a)[w] == multiset(v)[Signed32(w)]
  {
    if a != [] {
      SameCount(a[1..], v[1..], w);
      assert a == [a[0]] + a[1..] && v == [v[0]] + v[1..];
    }
  }

  /** Memories whose values are the same but for their order hold the same words. */
  lemma CellsPermute(m: Mem, m': Mem, n: Length)
    requires Fits(m, n) && Fits(m', n) && multiset(Values(m', n)) == multiset(Values(m, n))
    ensures multiset(Cells(m', n)) == multiset(Cells(m, n))
  {
    hide Load, Read32, Signed32;
    forall w ensures multiset(Cells(m', n))[w] == multiset(Cells(m, n))[w] {
      if 0 <= w < TWO32 {
        SameCount(Cells(m', n), Values(m', n), w);
        SameCount(Cells(m, n), Values(m, n), w);
      }
    }
  }

  /** The two stores of exch. */
  lemma StoresSwap(m: Mem, n: Length, j: nat)
    requires Fits(m, n) && j + 1 < n
    ensures var x, y := Read32(m, BASE + 4 * j), Read32(m, BASE + 4 * j + 4);
      var m2 := Store(Store(m, BASE + 4 * j, 4, y), BASE + 4 * j + 4, 4, x);
      && Values(m2, n) == Values(m, n)[j := Values(m, n)[j + 1]][j + 1 := Values(m, n)[j]]
      && SameOutside(m, m2, BASE, BASE + 4 * n)
  {
    hide Load, Store, SameOutside;
    assert Pow256(4) == TWO32;
    var a := BASE + 4 * j;
    var x, y := Read32(m, a), Read32(m, a + 4);
    var m1 := Store(m, a, 4, y);
    var m2 := Store(m1, a + 4, 4, x);
    StoreOutside(m, a, 4, y, BASE, BASE + 4 * n);
    StoreOutside(m1, a + 4, 4, x, BASE, BASE + 4 * n);
    OutsideJoin(m, m1, m2, BASE, BASE + 4 * n, BASE, BASE + 4 * n);
    var v := Values(m, n);
    forall k | 0 <= k < n
      ensures Values(m2, n)[k] == v[j := v[j + 1]][j + 1 := v[j]][k]
    {
      var b := BASE + 4 * k;
      LoadStored(m, a, 4, y);
      LoadStored(m1, a + 4, 4, x);
      if k == j {
        LoadElsewhere(m1, a + 4, 4, x, b, 4);
      } else if k != j + 1 {
        LoadElsewhere(m, a, 4, y, b, 4);
        LoadElsewhere(m1, a + 4, 4, x, b, 4);
      }
    }
  }

  // ----- the loops -----

  /** Registers, mask and bytes the program leaves alone. */
  ghost predicate Elsewhere(c0: Cpu, c: Cpu, n: nat) {
    var a, b := c0.regs, c.regs;
    && a.rsi == b.rsi && a.rdi == b.rdi && a.rbp == b.rbp && a.rsp == b.rsp
    && a.r8 == b.r8 && a.r9 == b.r9 && a.r10 == b.r10 && a.r11 == b.r11
    && a.r12 == b.r12 && a.r13 == b.r13 && a.r14 == b.r14 && a.r15 == b.r15
    && c.mask == c0.mask && c.scratch == c0.scratch
    && SameOutside(c0.mem, c.mem, BASE, BASE + 4 * n)
  }

  lemma Kept(c0: Cpu, c: Cpu, c': Cpu, n: nat)
    requires Elsewhere(c0, c, n)
    requires c'.mem == c.mem && c'.mask == c.mask && c'.scratch == c.scratch
    requires c'.regs == c.regs.(rax := c'.regs.rax, rbx := c'.regs.rbx, rcx := c'.regs.rcx, rdx := c'.regs.rdx)
    ensures Elsewhere(c0, c', n)
  {
  }

  /** ecx holds i, edx holds j, and the array holds a. */
  ghost predicate Holds(c0: Cpu, c: Cpu, n: Length, i: nat, j: nat, a: seq<int>) {
    && Fits(c.mem, n) && Values(c.mem, n) == a
    && c.regs.rcx == i && c.regs.rdx == j
    && Elsewhere(c0, c, n)
  }

  /** Control moves on, and nothing else. */
  lemma Moved(c0: Cpu, c: Cpu, n: Length, i: nat, j: nat, a: seq<int>, pc: nat, flags: Flags)
    requires Holds(c0, c, n, i, j, a)
    ensures Holds(c0, c.(pc := pc, flags := flags), n, i, j, a)
  {
  }

  /** A comparison of two 32-bit registers compares their signed values. */
  lemma Compares(r: Machine.Regs, d: Reg, s: Reg, x: int, y: int)
    requires r.Get(d) < TWO32 && r.Get(s) < TWO32
    requires Signed32(r.Get(d)) == x && Signed32(r.Get(s)) == y
    ensures Compare(Cmp32RR(d, s), r) == Compared(x, y)
  {
  }

  lemma ComparesCounter(r: Machine.Regs, d: Reg, x: nat, y: nat)
    requires r.Get(d) == x < 0x8000_0000 && y < 0x8000_0000
    ensures Compare(Cmp32RI(d, y), r) == Compared(x, y)
  {
  }

  /** mov eax, a[j]; mov ebx, a[j+1] */
  lemma LoadPair(c0: Cpu, p: Point, n: Length, i: nat, j: nat, a: seq<int>) returns (q: Point)
    requires On(Code(n), EXCH, p) && p.c.pc == INLOOP && Holds(c0, p.c, n, i, j, a) && j + 1 < n
    ensures On(Code(n), EXCH, q) && q.c0 == p.c0 && q.m0 == p.m0 && q.k == p.k + 2
    ensures Holds(c0, q.c, n, i, j, a) && q.m.hits == p.m.hits
    ensures q.c.mem == p.c.mem && q.c.pc == 4
    ensures q.c.regs.rax == Read32(q.c.mem, BASE + 4 * j)
    ensures q.c.regs.rbx == Read32(q.c.mem, BASE + 4 * j + 4)
  {
    CodeInner(n);
    hide RunFor, Exec, Load, Read32, Store, On, Elsewhere, Code, Values;
    q := DoMov32RM(Code(n), EXCH, p, RAX, 0x600000, RDX, BASE + 4 * j);
    q := DoMov32RM(Code(n), EXCH, q, RBX, 0x600004, RDX, BASE + 4 * j + 4);
    Kept(c0, p.c, q.c, n);
  }

  /** mov; mov; cmp; jg */
  lemma Test(c0: Cpu, p: Point, n: Length, i: nat, j: nat, a: seq<int>) returns (q: Point)
    requires On(Code(n), EXCH, p) && p.c.pc == INLOOP && Holds(c0, p.c, n, i, j, a) && j + 1 < n
    ensures On(Code(n), EXCH, q) && q.c0 == p.c0 && q.m0 == p.m0 && q.k == p.k + 4
    ensures Holds(c0, q.c, n, i, j, a) && q.m.hits == p.m.hits
    ensures q.c.mem == p.c.mem && q.c.pc == if OutOfOrder(a, j) then EXCH else CHECK
    ensures q.c.regs.rax == Read32(q.c.mem, BASE + 4 * j)
    ensures q.c.regs.rbx == Read32(q.c.mem, BASE + 4 * j + 4)
  {
    var r := LoadPair(c0, p, n, i, j, a);
    CodeInner(n);
    Compares(r.c.regs, RAX, RBX, a[j], a[j + 1]);
    hide RunFor, Exec, Load, Read32, On, Code, Holds, Compare;
    q := DoTest(Code(n), EXCH, r, Cmp32RR(RAX, RBX), Jg(13));
    Moved(c0, r.c, n, i, j, a, q.c.pc, q.c.flags);
  }

  /** exch: mov; mov; jmp check */
  lemma Exchange(c0: Cpu, p: Point, n: Length, i: nat, j: nat, a: seq<int>) returns (q: Point)
    requires On(Code(n), EXCH, p) && p.c.pc == EXCH && Holds(c0, p.c, n, i, j, a) && j + 1 < n
    requires p.c.regs.rax == Read32(p.c.mem, BASE + 4 * j)
    requires p.c.regs.rbx == Read32(p.c.mem, BASE + 4 * j + 4)
    ensures On(Code(n), EXCH, q) && q.c0 == p.c0 && q.m0 == p.m0 && q.k == p.k + 3
    ensures Holds(c0, q.c, n, i, j, a[j := a[j + 1]][j + 1 := a[j]]) && q.m.hits == p.m.hits + 1
    ensures q.c.pc == CHECK
  {
    var code := Code(n);
    CodeInner(n);
    hide RunFor, Exec, Load, Store, On, SameOutside, Code, Values;
    StoresSwap(p.c.mem, n, j);
    q := DoMov32MR(code, EXCH, p, 0x600000, RDX, RBX, BASE + 4 * j);
    q := DoMov32MR(code, EXCH, q, 0x600004, RDX, RAX, BASE + 4 * j + 4);
    q := DoJmp(code, EXCH, q, 6);
    OutsideJoin(c0.mem, p.c.mem, q.c.mem, BASE, BASE + 4 * n, BASE, BASE + 4 * n);
  }

  /** cmp edx, eax; jge exitin */
  lemma Decide(c0: Cpu, p: Point, n: Length, i: nat, j: nat, a: seq<int>) returns (q: Point)
    requires On(Code(n), EXCH, p) && p.c.pc == 10 && Holds(c0, p.c, n, i, j, a)
    requires i < n - 1 && j <= n && p.c.regs.rax == n - 1 - i
    ensures On(Code(n), EXCH, q) && q.c0 == p.c0 && q.m0 == p.m0 && q.k == p.k + 2
    ensures Holds(c0, q.c, n, i, j, a) && q.m.hits == p.m.hits
    ensures q.c.pc == if j >= n - 1 - i then EXITIN else 12
  {
    CodeCheck(n);
    Compares(p.c.regs, RDX, RAX, j, n - 1 - i);
    hide RunFor, Exec, On, Code, Holds, Compare;
    q := DoTest(Code(n), EXCH, p, Cmp32RR(RDX, RAX), Jge(16));
    Moved(c0, p.c, n, i, j, a, q.c.pc, q.c.flags);
  }

  /** check: inc; mov; neg; add; cmp; jge */
  lemma Check(c0: Cpu, p: Point, n: Length, i: nat, j: nat, a: seq<int>) returns (q: Point)
    requires On(Code(n), EXCH, p) && p.c.pc == CHECK && Holds(c0, p.c, n, i, j, a)
    requires i < n - 1 && j < n
    ensures On(Code(n), EXCH, q) && q.c0 == p.c0 && q.m0 == p.m0 && q.k == p.k + 6
    ensures Holds(c0, q.c, n, i, j + 1, a) && q.m.hits == p.m.hits
    ensures q.c.pc == if j + 1 >= n - 1 - i then EXITIN else 12
  {
    hide RunFor, Exec, On, Code, Holds;
    q := CountUp(c0, p, n, i, j, a);
    q := Remaining(c0, q, n, i, j + 1, a);
    q := Decide(c0, q, n, i, j + 1, a);
  }

  /** inc edx; mov eax, ecx */
  lemma CountUp(c0: Cpu, p: Point, n: Length, i: nat, j: nat, a: seq<int>) returns (q: Point)
    requires On(Code(n), EXCH, p) && p.c.pc == CHECK && Holds(c0, p.c, n, i, j, a)
    requires i < n - 1 && j < n
    ensures On(Code(n), EXCH, q) && q.c0 == p.c0 && q.m0 == p.m0 && q.k == p.k + 2
    ensures Holds(c0, q.c, n, i, j + 1, a) && q.m.hits == p.m.hits
    ensures q.c.pc == 8 && q.c.regs.rax == i
  {
    CodeCheck(n);
    hide RunFor, Exec, Load, Store, On, Elsewhere, Code, Values;
    q := DoArith(Code(n), EXCH, p, Inc32(RDX));
    q := DoMov32RR(Code(n), EXCH, q, RAX, RCX);
    Kept(c0, p.c, q.c, n);
  }

  /** neg eax; add eax, last */
  lemma Remaining(c0: Cpu, p: Point, n: Length, i: nat, j: nat, a: seq<int>) returns (q: Point)
    requires On(Code(n), EXCH, p) && p.c.pc == 8 && Holds(c0, p.c, n, i, j, a)
    requires i < n - 1 && p.c.regs.rax == i
    ensures On(Code(n), EXCH, q) && q.c0 == p.c0 && q.m0 == p.m0 && q.k == p.k + 2
    ensures Holds(c0, q.c, n, i, j, a) && q.m.hits == p.m.hits
    ensures q.c.pc == 10 && q.c.regs.rax == n - 1 - i
  {
    CodeCheck(n);
    hide RunFor, Exec, Load, Store, On, Elsewhere, Code, Values;
    q := DoArith(Code(n), EXCH, p, Neg32(RAX));
    assert q.c.regs.rax == if i == 0 then 0 else TWO32 - i;
    q := DoArith(Code(n), EXCH, q, Add32RI(RAX, n - 1));
    Kept(c0, p.c, q.c, n);
  }

  /** inc ecx */
  lemma CountPass(c0: Cpu, p: Point, n: Length, i: nat, j: nat, a: seq<int>) returns (q: Point)
    requires On(Code(n), EXCH, p) && p.c.pc == EXITIN && Holds(c0, p.c, n, i, j, a) && i < n - 1
    ensures On(Code(n), EXCH, q) && q.c0 == p.c0 && q.m0 == p.m0 && q.m.hits == p.m.hits && q.k == p.k + 1
    ensures q.c.pc == 17 && Holds(c0, q.c, n, i + 1, j, a)
  {
    CodeOuter(n);
    hide RunFor, Exec, Load, Store, On, Elsewhere, Code, Values;
    q := DoArith(Code(n), EXCH, p, Inc32(RCX));
    Kept(c0, p.c, q.c, n);
  }

  /** cmp ecx, n - 1; jge exitout */
  lemma LastPass(c0: Cpu, p: Point, n: Length, i: nat, j: nat, a: seq<int>) returns (q: Point)
    requires On(Code(n), EXCH, p) && p.c.pc == 17 && Holds(c0, p.c, n, i, j, a) && i < n
    ensures On(Code(n), EXCH, q) && q.c0 == p.c0 && q.m0 == p.m0 && q.m.hits == p.m.hits && q.k == p.k + 2
    ensures q.c.pc == (if i == n - 1 then EXITOUT else 19) && Holds(c0, q.c, n, i, j, a)
  {
    CodeOuter(n);
    ComparesCounter(p.c.regs, RCX, i, n - 1);
    hide RunFor, Exec, On, Code, Holds, Compare;
    q := DoTest(Code(n), EXCH, p, Cmp32RI(RCX, n - 1), Jge(20));
    Moved(c0, p.c, n, i, j, a, q.c.pc, q.c.flags);
  }

  /** jmp outloop; mov edx, 0 */
  lemma StartPass(c0: Cpu, p: Point, n: Length, i: nat, j: nat, a: seq<int>) returns (q: Point)
    requires On(Code(n), EXCH, p) && p.c.pc == 19 && Holds(c0, p.c, n, i, j, a)
    ensures On(Code(n), EXCH, q) && q.c0 == p.c0 && q.m0 == p.m0 && q.m.hits == p.m.hits && q.k == p.k + 2
    ensures q.c.pc == INLOOP && Holds(c0, q.c, n, i, 0, a)
  {
    CodeOuter(n);
    hide RunFor, Exec, Load, Store, On, Elsewhere, Code, Values;
    q := DoJmp(Code(n), EXCH, p, 1);
    q := DoMov32RI(Code(n), EXCH, q, RDX, 0);
    Kept(c0, p.c, q.c, n);
  }

  /** exitin: the end of a pass, and the start of the next unless that was the last. */
  lemma NextPass(c0: Cpu, p: Point, n: Length, i: nat, j: nat, a: seq<int>) returns (q: Point)
    requires On(Code(n), EXCH, p) && p.c.pc == EXITIN && Holds(c0, p.c, n, i, j, a) && i < n - 1
    ensures On(Code(n), EXCH, q) && q.c0 == p.c0 && q.m0 == p.m0 && q.m.hits == p.m.hits
    ensures i + 1 == n - 1 ==> q.c.pc == EXITOUT && q.k == p.k + 3 && Holds(c0, q.c, n, i + 1, j, a)
    ensures i + 1 < n - 1 ==> q.c.pc == INLOOP && q.k == p.k + 5 && Holds(c0, q.c, n, i + 1, 0, a)
  {
    hide On, Holds, Code;
    q := CountPass(c0, p, n, i, j, a);
    q := LastPass(c0, q, n, i + 1, j, a);
    if i + 1 < n - 1 {
      q := StartPass(c0, q, n, i + 1, j, a);
    }
  }

  /** jmp inloop */
  lemma JumpBack(c0: Cpu, p: Point, n: Length, i: nat, j: nat, a: seq<int>) returns (q: Point)
    requires On(Code(n), EXCH, p) && p.c.pc == 12 && Holds(c0, p.c, n, i, j, a)
    ensures On(Code(n), EXCH, q) && q.c0 == p.c0 && q.m0 == p.m0 && q.m.hits == p.m.hits && q.k == p.k + 1
    ensures q.c.pc == INLOOP && Holds(c0, q.c, n, i, j, a)
  {
    CodeCheck(n);
    hide RunFor, Exec, On, Code, Holds;
    q := DoJmp(Code(n), EXCH, p, 2);
    Moved(c0, p.c, n, i, j, a, q.c.pc, q.c.flags);
  }

  /** One turn of the inner loop: test, exchange if out of order, check. */
  lemma Turn(c0: Cpu, p: Point, n: Length, i: nat, j: nat, a: seq<int>) returns (q: Point)
    requires On(Code(n), EXCH, p) && p.c.pc == INLOOP && Holds(c0, p.c, n, i, j, a)
    requires j < n - 1 - i
    ensures On(Code(n), EXCH, q) && q.c0 == p.c0 && q.m0 == p.m0
    ensures |a| == n && Holds(c0, q.c, n, i, j + 1, CompareSwap(a, j))
    ensures q.k == p.k + 10 + 3 * Count(OutOfOrder(a, j)) + Count(j + 1 < n - 1 - i)
    ensures q.m.hits == p.m.hits + Count(OutOfOrder(a, j))
    ensures q.c.pc == if j + 1 < n - 1 - i then INLOOP else EXITIN
  {
    assert |a| == n;
    hide RunFor, Exec, On, Code, Holds;
    q := Test(c0, p, n, i, j, a);
    if OutOfOrder(a, j) {
      q := Exchange(c0, q, n, i, j, a);
    }
    q := Check(c0, q, n, i, j, CompareSwap(a, j));
    if j + 1 < n - 1 - i {
      q := JumpBack(c0, q, n, i, j + 1, CompareSwap(a, j));
    }
  }

  /** The inner loop. */
  lemma {:induction false} InnerLoop(c0: Cpu, p: Point, n: Length, i: nat, j: nat, a: seq<int>) returns (q: Point)
    requires On(Code(n), EXCH, p) && p.c.pc == INLOOP && Holds(c0, p.c, n, i, j, a)
    requires j < n - 1 - i && |a| == n
    ensures On(Code(n), EXCH, q) && q.c0 == p.c0 && q.m0 == p.m0 && q.c.pc == EXITIN
    ensures var end := n - 1 - i;
      && Holds(c0, q.c, n, i, end, Pass(a, j, end))
      && q.k == p.k + 11 * (end - j) - 1 + 3 * PassSwaps(a, j, end)
      && q.m.hits == p.m.hits + PassSwaps(a, j, end)
    decreases n - 1 - i - j
  {
    hide RunFor, On, Holds, Code;
    q := Turn(c0, p, n, i, j, a);
    if j + 1 < n - 1 - i {
      q := InnerLoop(c0, q, n, i, j + 1, CompareSwap(a, j));
    }
  }

  /** Instructions from the start of pass i to the end, exchanges apart. */
  function PassesCost(n: nat, i: nat): nat
    requires i + 1 < n
    decreases n - i
  {
    11 * (n - 1 - i) + 2 + if i + 2 == n then 0 else 2 + PassesCost(n, i + 1)
  }

  /** All passes from pass i on. */
  lemma {:induction false} OuterLoop(c0: Cpu, p: Point, n: Length, i: nat, a: seq<int>) returns (q: Point)
    requires On(Code(n), EXCH, p) && p.c.pc == INLOOP && Holds(c0, p.c, n, i, 0, a)
    requires i + 1 < n == |a|
    ensures On(Code(n), EXCH, q) && q.c0 == p.c0 && q.m0 == p.m0 && q.c.pc == EXITOUT
    ensures Holds(c0, q.c, n, n - 1, 1, Passes(a, i))
    ensures q.k == p.k + PassesCost(n, i) + 3 * Swaps(a, i)
    ensures q.m.hits == p.m.hits + Swaps(a, i)
    decreases n - i
  {
    hide RunFor, On, Holds, Code;
    q := InnerLoop(c0, p, n, i, 0, a);
    var b := Pass(a, 0, n - 1 - i);
    q := NextPass(c0, q, n, i, n - 1 - i, b);
    if i + 2 < n {
      q := OuterLoop(c0, q, n, i + 1, b);
    } else {
      assert Passes(b, i + 1) == b && Swaps(b, i + 1) == 0;
    }
  }

  lemma {:induction false} PassesCostClosed(n: nat, i: nat)
    requires i + 1 < n
    ensures 2 * PassesCost(n, i) == 11 * (n - 1 - i) * (n - i) + 8 * (n - 1 - i) - 4
    decreases n - i
  {
    if i + 2 < n {
      PassesCostClosed(n, i + 1);
    }
  }

  lemma Cost(n: Length, k: nat, swaps: nat)
    requires k == 2 + PassesCost(n, 0) + 3 * swaps
    ensures 2 * k == 11 * (n - 1) * n + 8 * (n - 1) + 6 * swaps
  {
    PassesCostClosed(n, 0);
  }

  /** For every array of n >= 2 cells: the program halts; the array is then the ascending
      permutation of what it was, no byte outside it has changed; exch ran once per inversion;
      and the number of instructions is fixed by n and the inversions alone. */
  lemma Program(c: Cpu, m: Meter, n: Length) returns (q: Point)
    requires c.pc == 0 && Fits(c.mem, n)
    ensures On(Code(n), EXCH, q) && q.c0 == c && q.m0 == m && q.c.pc == EXITOUT == |Code(n)|
    ensures var a := Values(c.mem, n);
      && Elsewhere(c, q.c, n) && Fits(q.c.mem, n)
      && Ascending(Values(q.c.mem, n)) && multiset(Values(q.c.mem, n)) == multiset(a)
      && InSignedOrder(Cells(q.c.mem, n)) && multiset(Cells(q.c.mem, n)) == multiset(Cells(c.mem, n))
      && q.m.hits == m.hits + Inversions(a)
      && 2 * q.k == 11 * (n - 1) * n + 8 * (n - 1) + 6 * Inversions(a)
  {
    var a := Values(c.mem, n);
    CodeOuter(n);
    hide RunFor, Exec, Load, Store, On, Code, Values, Passes, Swaps, Inversions, PassesCost, SameOutside, Elsewhere;
    hide Ascending, Cells, InSignedOrder;
    q := Begin(c, m, n, a);
    q := OuterLoop(c, q, n, 0, a);
    Sorts(a);
    Cost(n, q.k, Swaps(a, 0));
    CellsInOrder(q.c.mem, n);
    CellsPermute(c.mem, q.c.mem, n);
  }

  /** mov ecx, 0; mov edx, 0 */
  lemma Begin(c: Cpu, m: Meter, n: Length, a: seq<int>) returns (q: Point)
    requires c.pc == 0 && Fits(c.mem, n) && Values(c.mem, n) == a
    ensures On(Code(n), EXCH, q) && q.c0 == c && q.m0 == m && q.k == 2 && q.c.pc == INLOOP
    ensures Holds(c, q.c, n, 0, 0, a) && q.m.hits == m.hits
  {
    var code := Code(n);
    CodeOuter(n);
    hide RunFor, Exec, Load, Store, On, Code, Values;
    q := Start(code, EXCH, c, m);
    q := DoMov32RI(code, EXCH, q, RCX, 0);
    q := DoMov32RI(code, EXCH, q, RDX, 0);
  }

  /** The file's ten cells: 531 instructions and three more for each inversion. */
  lemma TenCells(c: Cpu, m: Meter) returns (q: Point)
    requires c.pc == 0 && Fits(c.mem, 10)
    ensures On(Code(10), EXCH, q) && q.c0 == c && q.m0 == m && q.c.pc == EXITOUT == |Code(10)|
    ensures Fits(q.c.mem, 10) && Elsewhere(c, q.c, 10)
    ensures Ascending(Values(q.c.mem, 10))
    ensures multiset(Values(q.c.mem, 10)) == multiset(Values(c.mem, 10))
    ensures InSignedOrder(Cells(q.c.mem, 10)) && multiset(Cells(q.c.mem, 10)) == multiset(Cells(c.mem, 10))
    ensures q.k == 531 + 3 * Inversions(Values(c.mem, 10))
    ensures q.m.hits == m.hits + Inversions(Values(c.mem, 10))
  {
    q := Program(c, m, 10);
  }

  /** The program on a processor: the array in its memory is sorted in place. */
  method Execute(p: Processor, n: Length)
    requires p.code == Code(n) && p.mark == EXCH && p.cpu.pc == 0 && Fits(p.cpu.mem, n)
    modifies p
    ensures p.cpu.pc == EXITOUT && Fits(p.cpu.mem, n) && Elsewhere(old(p.cpu), p.cpu, n)
    ensures Ascending(Values(p.cpu.mem, n))
    ensures multiset(Values(p.cpu.mem, n)) == multiset(Values(old(p.cpu.mem), n))
    ensures InSignedOrder(Cells(p.cpu.mem, n))
    ensures multiset(Cells(p.cpu.mem, n)) == multiset(Cells(old(p.cpu.mem), n))
    ensures p.meter.hits == old(p.meter.hits) + Inversions(Values(old(p.cpu.mem), n))
  {
    ghost var q := Program(p.cpu, p.meter, n);
    hide Code, Values, Cells, Inversions, Elsewhere, InSignedOrder;
    p.Run(q.k);
  }
}
