/** recur.asm: a doubly recursive routine with hand-managed frames. */
module Recur {
  import opened Words
  import opened Machine
  import opened Stepping
  import opened Processors

  const EXIT: nat := 36
  const R: nat := 4

  /** Where the two nested calls return to, each one instruction before its label. */
  const AFTER1: nat := 14
  const AFTER2: nat := 23

  const CODE: seq<Instr> := [
    PushI(25),                  // 0: call r(25)
    Call(4),
    Add32RI(RSP, 8),
    Jmp(36),
    PushR(RBP),                 // 4: r
    MovRR(RBP, RSP),
    MovRM(RBX, At(RBP, 16)),
    CmpRI(RBX, 0),
    Jle(30),
    CmpRI(RBX, 1),
    Je(33),
    Dec(RBX),
    PushR(RBX),
    Call(4),
    Add32RI(RSP, 8),            // 14
    MovRI(RCX, 2),              // Return1
    Mul(RCX),
    MovRR(RDX, RAX),
    PushR(RDX),
    MovRM(RBX, At(RBP, 16)),
    SubRI(RBX, 2),
    PushR(RBX),
    Call(4),
    Add32RI(RSP, 8),            // 23
    MovRI(RCX, 3),              // Return2
    Mul(RCX),
    PopR(RDX),
    AddRR(RAX, RDX),
    PopR(RBP),
    Ret,
    MovRI(RAX, 0),              // 30: L1
    PopR(RBP),
    Ret,
    MovRI(RAX, 1),              // 33: L2
    PopR(RBP),
    Ret
  ]

  // ----- what the routine computes and what it costs -----

  function Value(n: int): nat {
    if n <= 0 then 0 else if n == 1 then 1 else 2 * Value(n - 1) + 3 * Value(n - 2)
  }

  function Pow3(n: nat): nat {
    if n == 0 then 1 else 3 * Pow3(n - 1)
  }

  function Fib(n: nat): nat {
    if n < 2 then n else Fib(n - 1) + Fib(n - 2)
  }

  /** Bytes of stack below the entry rsp. */
  function Depth(n: int): nat {
    if n <= 1 then 8 else 24 * n - 8
  }

  function Entries(n: int): nat {
    if n <= 1 then 1 else 1 + Entries(n - 1) + Entries(n - 2)
  }

  function Instructions(n: int): nat {
    if n <= 0 then 8 else if n == 1 then 10 else 26 + Instructions(n - 1) + Instructions(n - 2)
  }

  /** (-1)^n. */
  function Sign(n: nat): int {
    if n == 0 then 1 else -Sign(n - 1)
  }

  lemma {:induction false} ClosedForm(n: nat)
    ensures 4 * Value(n) == Pow3(n) - Sign(n)
  {
    if n >= 2 {
      ClosedForm(n - 1);
      ClosedForm(n - 2);
    }
  }

  lemma {:induction false} EntriesAreFibonacci(n: nat)
    ensures Entries(n) == 2 * Fib(n + 1) - 1
  {
    if n >= 2 {
      EntriesAreFibonacci(n - 1);
      EntriesAreFibonacci(n - 2);
    }
  }

  // ----- the state at the entry of r -----

  /** rsp points at the return address, and the argument is above it; the stack has room for
      the recursion above page zero. */
  predicate Entered(c: Cpu, n: int, ra: Word) {
    var E := c.regs.rsp;
    && c.pc == R
    && LOWEST + Depth(n) <= E && E + 16 <= |c.mem| < TWO64
    && Read(c.mem, E) == ra && Signed(Read(c.mem, E + 8)) == n
  }

  /** And `add esp, 8` keeps rsp: an activation that calls has its frame below 2^32. */
  predicate AtEntry(c: Cpu, n: int, ra: Word) {
    Entered(c, n, ra) && (n >= 2 ==> c.regs.rsp - 8 < TWO32)
  }

  /** Registers that r leaves alone. */
  predicate SameOthers(a: Machine.Regs, b: Machine.Regs) {
    && a.rsi == b.rsi && a.rdi == b.rdi && a.r8 == b.r8 && a.r9 == b.r9 && a.r10 == b.r10
    && a.r11 == b.r11 && a.r12 == b.r12 && a.r13 == b.r13 && a.r14 == b.r14 && a.r15 == b.r15
  }

  ghost predicate Returned(c: Cpu, c': Cpu, n: int, ra: Word) {
    && c'.pc == ra && c'.regs.rax == Wrap(Value(n))
    && c'.regs.rsp == c.regs.rsp + 8 && c'.regs.rbp == c.regs.rbp
    && SameOthers(c.regs, c'.regs) && c'.mask == c.mask && c'.scratch == c.scratch
    && SameOutside(c.mem, c'.mem, c.regs.rsp - Depth(n), c.regs.rsp)
  }

  // ----- one activation, in pieces -----

  /** Inside an activation entered in state c: rsp is sp, rbp holds the frame address with the
      caller's rbp in it, and nothing outside [lo, entry rsp) has been written. */
  ghost predicate InFrame(c: Cpu, d: Cpu, sp: int, lo: int) {
    var E := c.regs.rsp;
    && d.regs.rsp == sp && d.regs.rbp == E - 8
    && LOWEST <= lo <= sp <= E - 8
    && E + 16 <= |c.mem| == |d.mem| < TWO64
    && SameOthers(c.regs, d.regs) && d.mask == c.mask && d.scratch == c.scratch
    && SameOutside(c.mem, d.mem, lo, E)
    && Read(d.mem, E - 8) == c.regs.rbp
  }

  lemma CodeOpen()
    ensures |CODE| == 36 && CODE[4] == PushR(RBP) && CODE[5] == MovRR(RBP, RSP)
  {
  }

  /** push rbp; mov rbp, rsp */
  lemma OpenFrame(c: Cpu, m: Meter, n: int, ra: Word) returns (p: Point)
    requires Entered(c, n, ra)
    ensures On(CODE, R, p) && p.c0 == c && p.m0 == m && p.k == 2
    ensures InFrame(c, p.c, c.regs.rsp - 8, c.regs.rsp - 8)
    ensures p.c.pc == 6 && Read(p.c.mem, c.regs.rsp + 8) == Read(c.mem, c.regs.rsp + 8)
    ensures p.m == Meter(Min(m.low, c.regs.rsp - 8), m.hits + 1)
  {
    CodeOpen();
    hide RunFor, Exec, Load, Read, Store, On, SameOutside, CODE;
    var E := c.regs.rsp;
    StoreOutside(c.mem, E - 8, 8, c.regs.rbp, E - 8, E);
    ReadElsewhere(c.mem, E - 8, c.regs.rbp, E + 8);
    ReadStored(c.mem, E - 8, c.regs.rbp);
    p := Start(CODE, R, c, m);
    p := DoPushR(CODE, R, p, RBP);
    p := DoMovRR(CODE, R, p, RBP, RSP);
  }

  /** push rbp; mov rbp, rsp; mov rbx, [rbp+16]; cmp rbx, 0 */
  lemma Enter(c: Cpu, m: Meter, n: int, ra: Word) returns (p: Point)
    requires Entered(c, n, ra)
    ensures On(CODE, R, p) && p.c0 == c && p.m0 == m && p.k == 4
    ensures InFrame(c, p.c, c.regs.rsp - 8, c.regs.rsp - 8)
    ensures p.c.pc == 8 && Signed(p.c.regs.rbx) == n && p.c.flags == Compared(n, 0)
    ensures p.m == Meter(Min(m.low, c.regs.rsp - 8), m.hits + 1)
  {
    hide RunFor, Exec, Load, Read, Store, On, SameOutside;
    p := OpenFrame(c, m, n, ra);
    p := DoMovRM(CODE, R, p, RBX, RBP, 16, c.regs.rsp + 8);
    p := DoCompare(CODE, R, p, CmpRI(RBX, 0));
  }

  /** pop rbp; ret */
  lemma Leave(c: Cpu, p: Point, lo: int) returns (q: Point)
    requires On(CODE, R, p) && p.c.pc in {28, 31, 34} && InFrame(c, p.c, c.regs.rsp - 8, lo)
    ensures On(CODE, R, q) && q.c0 == p.c0 && q.m0 == p.m0 && q.k == p.k + 2 && q.m == p.m
    ensures q.c.pc == Read(c.mem, c.regs.rsp) && q.c.regs.rax == p.c.regs.rax
    ensures q.c.regs.rsp == c.regs.rsp + 8 && q.c.regs.rbp == c.regs.rbp
    ensures SameOthers(c.regs, q.c.regs) && q.c.mask == c.mask && q.c.scratch == c.scratch
    ensures SameOutside(c.mem, q.c.mem, lo, c.regs.rsp)
  {
    hide RunFor, Exec, Load, Read, Store, On, SameOutside;
    var E := c.regs.rsp;
    ReadOutside(c.mem, p.c.mem, lo, E, E);
    q := DoPopR(CODE, R, p, RBP);
    q := DoRet(CODE, R, q);
  }

  /** The activation entered in c has returned, at the stated cost. */
  ghost predicate Done(c: Cpu, m: Meter, n: int, ra: Word, q: Point) {
    && On(CODE, R, q) && q.c0 == c && q.m0 == m && q.k == Instructions(n)
    && Returned(c, q.c, n, ra)
    && q.m == Meter(Min(m.low, c.regs.rsp - Depth(n)), m.hits + Entries(n))
  }

  lemma LeafZero(c: Cpu, m: Meter, n: int, ra: Word) returns (q: Point)
    requires AtEntry(c, n, ra) && n <= 0
    ensures Done(c, m, n, ra, q)
  {
    hide RunFor, Exec, Load, Read, SameOutside, On;
    q := Enter(c, m, n, ra);
    q := DoJcc(CODE, R, q, Jle(30));
    q := DoMovRI(CODE, R, q, RAX, 0);
    q := Leave(c, q, c.regs.rsp - 8);
  }

  lemma LeafOne(c: Cpu, m: Meter, ra: Word) returns (q: Point)
    requires AtEntry(c, 1, ra)
    ensures Done(c, m, 1, ra, q)
  {
    hide RunFor, Exec, Load, Read, SameOutside, On;
    q := Enter(c, m, 1, ra);
    q := DoJcc(CODE, R, q, Jle(30));
    q := DoCompare(CODE, R, q, CmpRI(RBX, 1));
    q := DoJcc(CODE, R, q, Je(33));
    q := DoMovRI(CODE, R, q, RAX, 1);
    q := Leave(c, q, c.regs.rsp - 8);
  }

  /** A push inside a frame. */
  lemma FramePush(c: Cpu, d: Cpu, sp: int, lo: int, v: Word)
    requires InFrame(c, d, sp, lo) && MappedAt(d.mem, sp - 8, 8)
    ensures InFrame(c, Pushed(d, v), sp - 8, Min(lo, sp - 8))
    ensures Read(Pushed(d, v).mem, sp - 8) == v
    ensures forall a :: sp <= a && a + 8 <= |c.mem| ==> Read(Pushed(d, v).mem, a) == Read(d.mem, a)
  {
    hide Load, Read, Store;
    var E := c.regs.rsp;
    StoreOutside(d.mem, sp - 8, 8, v, sp - 8, sp);
    OutsideJoin(c.mem, d.mem, Pushed(d, v).mem, lo, E, sp - 8, sp);
    ReadStored(d.mem, sp - 8, v);
    forall a | sp <= a && a + 8 <= |c.mem| ensures Read(Pushed(d, v).mem, a) == Read(d.mem, a) {
      ReadElsewhere(d.mem, sp - 8, v, a);
    }
  }

  /** What a nested activation leaves of the frame around it. */
  lemma FrameReturn(c: Cpu, d: Cpu, e: Cpu, n: int, ra: Word, lo: int)
    requires InFrame(c, d, d.regs.rsp, lo) && d.regs.rsp + 8 <= c.regs.rsp - 8
    requires AtEntry(d, n, ra) && Returned(d, e, n, ra)
    ensures InFrame(c, e, d.regs.rsp + 8, Min(lo, d.regs.rsp - Depth(n)))
    ensures forall a :: d.regs.rsp <= a && a + 8 <= |c.mem| ==> Read(e.mem, a) == Read(d.mem, a)
  {
    hide Load, Read;
    var E, sp := c.regs.rsp, d.regs.rsp;
    OutsideJoin(c.mem, d.mem, e.mem, lo, E, sp - Depth(n), sp);
    forall a | sp <= a && a + 8 <= |c.mem| ensures Read(e.mem, a) == Read(d.mem, a) {
      ReadOutside(d.mem, e.mem, sp - Depth(n), sp, a);
    }
  }

  /** jle; cmp rbx, 1; je; dec rbx; push rbx; call r */
  lemma CallFirst(c: Cpu, m: Meter, n: int, ra: Word) returns (q: Point)
    requires Entered(c, n, ra) && n >= 2
    ensures On(CODE, R, q) && q.c0 == c && q.m0 == m && q.k == 10
    ensures InFrame(c, q.c, c.regs.rsp - 24, c.regs.rsp - 24) && Entered(q.c, n - 1, AFTER1)
    ensures q.m == Meter(Min(m.low, c.regs.rsp - 24), m.hits + 1)
  {
    hide RunFor, Exec, Load, Read, Store, SameOutside, On;
    var E := c.regs.rsp;
    q := Enter(c, m, n, ra);
    q := DoJcc(CODE, R, q, Jle(30));
    q := DoCompare(CODE, R, q, CmpRI(RBX, 1));
    q := DoJcc(CODE, R, q, Je(33));
    q := DoArith(CODE, R, q, Dec(RBX));
    assert q.c.regs.rbx == n - 1;
    FramePush(c, q.c, E - 8, E - 8, n - 1);
    q := DoPushR(CODE, R, q, RBX);
    FramePush(c, q.c, E - 16, E - 16, AFTER1);
    q := DoCall(CODE, R, q, 4);
  }

  /** add esp, 8; mov rcx, 2 */
  lemma Unwind(c: Cpu, p: Point, lo: int, k: Word) returns (q: Point)
    requires On(CODE, R, p) && InFrame(c, p.c, p.c.regs.rsp, lo) && p.c.regs.rsp + 8 <= c.regs.rsp - 8 < TWO32
    requires (p.c.pc == AFTER1 && k == 2) || (p.c.pc == AFTER2 && k == 3)
    ensures On(CODE, R, q) && q.c0 == p.c0 && q.m0 == p.m0 && q.k == p.k + 2 && q.m == p.m
    ensures InFrame(c, q.c, p.c.regs.rsp + 8, lo) && q.c.pc == p.c.pc + 2 && q.c.mem == p.c.mem
    ensures q.c.regs.rax == p.c.regs.rax && q.c.regs.rcx == k
  {
    CodeAfterCall();
    hide RunFor, Exec, Load, Read, Store, SameOutside, On, CODE;
    q := DoArith(CODE, R, p, Add32RI(RSP, 8));
    q := DoMovRI(CODE, R, q, RCX, k);
  }

  lemma CodeAfterCall()
    ensures |CODE| == 36
    ensures CODE[AFTER1] == CODE[AFTER2] == Add32RI(RSP, 8)
    ensures CODE[AFTER1 + 1] == MovRI(RCX, 2) && CODE[AFTER2 + 1] == MovRI(RCX, 3)
  {
  }

  /** add esp, 8; mov rcx, k; mul rcx */
  lemma Scale(c: Cpu, p: Point, v: nat, k: Word, lo: int) returns (q: Point)
    requires On(CODE, R, p) && InFrame(c, p.c, p.c.regs.rsp, lo) && p.c.regs.rsp + 8 <= c.regs.rsp - 8 < TWO32
    requires (p.c.pc == AFTER1 && k == 2) || (p.c.pc == AFTER2 && k == 3)
    requires p.c.regs.rax == Wrap(v)
    ensures On(CODE, R, q) && q.c0 == p.c0 && q.m0 == p.m0 && q.k == p.k + 3 && q.m == p.m
    ensures InFrame(c, q.c, p.c.regs.rsp + 8, lo) && q.c.pc == p.c.pc + 3 && q.c.mem == p.c.mem
    ensures q.c.regs.rax == Wrap(v * k)
  {
    hide RunFor, Exec, Load, Read, Store, SameOutside, On;
    var hi;
    q := Unwind(c, p, lo, k);
    q, hi := DoMul(CODE, R, q, RCX, v, k);
  }

  /** add esp, 8; mov rcx, 2; mul rcx; mov rdx, rax; push rdx */
  lemma Double(c: Cpu, p: Point, v: nat, lo: int) returns (q: Point)
    requires On(CODE, R, p) && p.c.pc == AFTER1 && InFrame(c, p.c, c.regs.rsp - 16, lo)
    requires c.regs.rsp - 8 < TWO32
    requires p.c.regs.rax == Wrap(v)
    ensures On(CODE, R, q) && q.c0 == p.c0 && q.m0 == p.m0 && q.k == p.k + 5 && q.c.pc == 19
    ensures InFrame(c, q.c, c.regs.rsp - 16, lo) && Read(q.c.mem, c.regs.rsp - 16) == Wrap(2 * v)
    ensures q.m == Meter(Min(p.m.low, c.regs.rsp - 16), p.m.hits)
  {
    hide RunFor, Exec, Load, Read, Store, SameOutside, On, Wrap;
    q := Scale(c, p, v, 2, lo);
    q := DoMovRR(CODE, R, q, RDX, RAX);
    FramePush(c, q.c, c.regs.rsp - 8, lo, q.c.regs.rdx);
    q := DoPushR(CODE, R, q, RDX);
  }

  /** mov rbx, [rbp+16]; sub rbx, 2 */
  lemma LoadArgument(c: Cpu, p: Point, n: int, ra: Word, lo: int) returns (q: Point)
    requires On(CODE, R, p) && p.c.pc == 19 && InFrame(c, p.c, c.regs.rsp - 16, lo)
    requires AtEntry(c, n, ra) && n >= 2
    ensures On(CODE, R, q) && q.c0 == p.c0 && q.m0 == p.m0 && q.k == p.k + 2 && q.m == p.m
    ensures InFrame(c, q.c, c.regs.rsp - 16, lo) && q.c.mem == p.c.mem
    ensures q.c.pc == 21 && q.c.regs.rbx == n - 2
  {
    hide RunFor, Exec, Load, Read, Store, On, SameOutside;
    var E := c.regs.rsp;
    ReadOutside(c.mem, p.c.mem, lo, E, E + 8);
    q := DoMovRM(CODE, R, p, RBX, RBP, 16, E + 8);
    q := DoArith(CODE, R, q, SubRI(RBX, 2));
  }

  /** mov rbx, [rbp+16]; sub rbx, 2; push rbx; call r */
  lemma CallSecond(c: Cpu, p: Point, n: int, ra: Word, lo: int) returns (q: Point)
    requires On(CODE, R, p) && p.c.pc == 19 && InFrame(c, p.c, c.regs.rsp - 16, lo)
    requires AtEntry(c, n, ra) && n >= 2
    ensures On(CODE, R, q) && q.c0 == p.c0 && q.m0 == p.m0 && q.k == p.k + 4
    ensures InFrame(c, q.c, c.regs.rsp - 32, Min(lo, c.regs.rsp - 32)) && AtEntry(q.c, n - 2, AFTER2)
    ensures Read(q.c.mem, c.regs.rsp - 16) == Read(p.c.mem, c.regs.rsp - 16)
    ensures q.m == Meter(Min(p.m.low, c.regs.rsp - 32), p.m.hits)
  {
    hide RunFor, Exec, Load, Read, Store, On, SameOutside;
    var E := c.regs.rsp;
    q := LoadArgument(c, p, n, ra, lo);
    FramePush(c, q.c, E - 16, lo, n - 2);
    q := DoPushR(CODE, R, q, RBX);
    FramePush(c, q.c, E - 24, Min(lo, E - 24), AFTER2);
    q := DoCall(CODE, R, q, 4);
  }

  lemma WrapSum(a: nat, b: nat)
    ensures Wrap(Wrap(a) + Wrap(b)) == Wrap(a + b)
  {
  }

  /** add esp, 8; mov rcx, 3; mul rcx; pop rdx; add rax, rdx */
  lemma Combine(c: Cpu, p: Point, v: nat, w: nat, lo: int) returns (q: Point)
    requires On(CODE, R, p) && p.c.pc == AFTER2 && InFrame(c, p.c, c.regs.rsp - 24, lo)
    requires c.regs.rsp - 8 < TWO32
    requires p.c.regs.rax == Wrap(w) && Read(p.c.mem, c.regs.rsp - 16) == Wrap(2 * v)
    ensures On(CODE, R, q) && q.c0 == p.c0 && q.m0 == p.m0 && q.k == p.k + 5 && q.c.pc == 28
    ensures InFrame(c, q.c, c.regs.rsp - 8, lo) && q.c.regs.rax == Wrap(2 * v + 3 * w)
    ensures q.m == p.m
  {
    hide RunFor, Exec, Load, Read, Store, On, SameOutside;
    q := Scale(c, p, w, 3, lo);
    q := DoPopR(CODE, R, q, RDX);
    WrapSum(3 * w, 2 * v);
    q := DoArith(CODE, R, q, AddRR(RAX, RDX));
  }

  /** The routine: for every n and every stack with room, r returns to its caller with r(n)
      mod 2^64 in rax, rsp just above the return address, rbp and the registers it does not
      compute with as they were, no byte changed at or above the entry rsp or more than
      Depth(n) below it, and exactly that depth reached; r is entered Entries(n) times. */
  lemma {:induction false} Routine(c: Cpu, m: Meter, n: int, ra: Word) returns (q: Point)
    requires AtEntry(c, n, ra)
    ensures Done(c, m, n, ra, q)
    decreases n, 2
  {
    if n <= 0 {
      q := LeafZero(c, m, n, ra);
    } else if n == 1 {
      q := LeafOne(c, m, ra);
    } else {
      q := Inner(c, m, n, ra);
    }
  }

  /** Up to the point where 2*r(n-1) has been saved on the stack. */
  lemma {:induction false} FirstHalf(c: Cpu, m: Meter, n: int, ra: Word) returns (q: Point, lo: int)
    requires AtEntry(c, n, ra) && n >= 2
    ensures On(CODE, R, q) && q.c0 == c && q.m0 == m && q.k == 15 + Instructions(n - 1) && q.c.pc == 19
    ensures lo == c.regs.rsp - 24 - Depth(n - 1) && InFrame(c, q.c, c.regs.rsp - 16, lo)
    ensures Read(q.c.mem, c.regs.rsp - 16) == Wrap(2 * Value(n - 1))
    ensures q.m == Meter(Min(m.low, lo), m.hits + 1 + Entries(n - 1))
    decreases n, 0
  {
    hide RunFor, Exec, Load, Read, Store, SameOutside, SameOthers, Wrap;
    var E := c.regs.rsp;
    q := CallFirst(c, m, n, ra);
    var d := q.c;
    var r := Routine(d, q.m, n - 1, AFTER1);
    q := Join(CODE, R, q, r.k, r.c, r.m);
    FrameReturn(c, d, r.c, n - 1, AFTER1, E - 24);
    lo := E - 24 - Depth(n - 1);
    q := Double(c, q, Value(n - 1), lo);
  }

  /** From there to the return of the second call. */
  lemma {:induction false} SecondHalf(c: Cpu, p: Point, n: int, ra: Word, lo1: int)
    returns (q: Point, lo: int)
    requires On(CODE, R, p) && p.c.pc == 19 && InFrame(c, p.c, c.regs.rsp - 16, lo1)
    requires AtEntry(c, n, ra) && n >= 2
    ensures On(CODE, R, q) && q.c0 == p.c0 && q.m0 == p.m0 && q.k == p.k + 4 + Instructions(n - 2)
    ensures lo == Min(Min(lo1, c.regs.rsp - 32), c.regs.rsp - 32 - Depth(n - 2))
    ensures InFrame(c, q.c, c.regs.rsp - 24, lo)
    ensures q.c.pc == AFTER2 && q.c.regs.rax == Wrap(Value(n - 2))
    ensures Read(q.c.mem, c.regs.rsp - 16) == Read(p.c.mem, c.regs.rsp - 16)
    ensures q.m.low == Min(Min(p.m.low, c.regs.rsp - 32), c.regs.rsp - 32 - Depth(n - 2))
    ensures q.m.hits == p.m.hits + Entries(n - 2)
    decreases n, 0
  {
    hide RunFor, Exec, Load, Read, Store, SameOutside, SameOthers, Wrap;
    var E := c.regs.rsp;
    q := CallSecond(c, p, n, ra, lo1);
    var d := q.c;
    var r := Routine(d, q.m, n - 2, AFTER2);
    q := Join(CODE, R, q, r.k, r.c, r.m);
    FrameReturn(c, d, r.c, n - 2, AFTER2, Min(lo1, E - 32));
    lo := Min(Min(lo1, E - 32), E - 32 - Depth(n - 2));
  }

  /** Of the two nested calls the first goes deeper, by as much as Depth says. */
  lemma Deepest(E: int, n: int, low: int)
    requires n >= 2
    ensures var lo1 := E - 24 - Depth(n - 1); var lo2 := E - 32 - Depth(n - 2);
      && Min(Min(lo1, E - 32), lo2) == E - Depth(n)
      && Min(Min(Min(low, lo1), E - 32), lo2) == Min(low, E - Depth(n))
  {
  }

  lemma {:induction false} Inner(c: Cpu, m: Meter, n: int, ra: Word) returns (q: Point)
    requires AtEntry(c, n, ra) && n >= 2
    ensures Done(c, m, n, ra, q)
    decreases n, 1
  {
    hide RunFor, Exec, Load, Read, Store, SameOutside, SameOthers, On, Wrap, Signed;
    var lo1, lo;
    q, lo1 := FirstHalf(c, m, n, ra);
    q, lo := SecondHalf(c, q, n, ra, lo1);
    Deepest(c.regs.rsp, n, m.low);
    hide Depth, Min;
    q := Combine(c, q, Value(n - 1), Value(n - 2), lo);
    q := Leave(c, q, lo);
  }

  // ----- a stack above 2^32 -----

  /** Just after the first `add esp, 8` of an activation, rsp is no longer the frame address that
      rbp holds: its upper half has been cleared. */
  predicate StackLost(c: Cpu) {
    c.pc == AFTER1 + 1 && c.regs.rsp < TWO32 <= c.regs.rbp && c.regs.rsp == Wrap32(c.regs.rbp)
  }

  /** Back from the first nested call, `add esp, 8` leaves rsp at the frame address exactly when
      the frame lies below 2^32. */
  lemma AddEspExact(c: Cpu, p: Point, lo: int) returns (q: Point)
    requires On(CODE, R, p) && p.c.pc == AFTER1 && InFrame(c, p.c, c.regs.rsp - 16, lo)
    ensures On(CODE, R, q) && q.c0 == p.c0 && q.m0 == p.m0 && q.k == p.k + 1
    ensures q.c.regs.rsp == q.c.regs.rbp <==> c.regs.rsp - 8 < TWO32
    ensures c.regs.rsp - 8 >= TWO32 ==> StackLost(q.c) && q.c.regs.rbp == c.regs.rsp - 8
    ensures q.c.mem == p.c.mem
  {
    CodeAfterCall();
    hide RunFor, Exec, Load, Read, Store, SameOutside, On, CODE;
    q := DoArith(CODE, R, p, Add32RI(RSP, 8));
  }

  /** With the frame of an activation that calls at or above 2^32, the routine loses its stack:
      for every such n and stack, some activation of the run finds rsp below 2^32 and its frame
      above. */
  lemma {:induction false} LosesStack(c: Cpu, m: Meter, n: int, ra: Word) returns (q: Point)
    requires Entered(c, n, ra) && n >= 2 && c.regs.rsp - 8 >= TWO32
    ensures On(CODE, R, q) && q.c0 == c && q.m0 == m
    ensures StackLost(q.c) && q.c.regs.rbp <= c.regs.rsp - 8 && |q.c.mem| == |c.mem|
    decreases n
  {
    hide RunFor, Exec, Load, Read, Store, SameOutside, SameOthers, Wrap, Instructions, CODE;
    var E := c.regs.rsp;
    var p := CallFirst(c, m, n, ra);
    var d := p.c;
    if n - 1 >= 2 && d.regs.rsp - 8 >= TWO32 {
      var r := LosesStack(d, p.m, n - 1, AFTER1);
      q := Join(CODE, R, p, r.k, r.c, r.m);
    } else {
      var r := Routine(d, p.m, n - 1, AFTER1);
      p := Join(CODE, R, p, r.k, r.c, r.m);
      FrameReturn(c, d, r.c, n - 1, AFTER1, E - 24);
      q := AddEspExact(c, p, Min(E - 24, d.regs.rsp - Depth(n - 1)));
    }
  }

  lemma WrapWord(w: Word)
    ensures Wrap(w) == w
  {
  }

  /** mov rcx, 2; mul rcx; mov rdx, rax */
  lemma UpToPush(p: Point) returns (q: Point)
    requires On(CODE, R, p) && p.c.pc == AFTER1 + 1
    ensures On(CODE, R, q) && q.c0 == p.c0 && q.m0 == p.m0 && q.c.pc == AFTER1 + 4
    ensures q.c.regs.rsp == p.c.regs.rsp && q.c.mem == p.c.mem
  {
    CodeDoubling();
    hide RunFor, Exec, Load, Read, Store, On, CODE, Wrap, Wrap32;
    WrapWord(p.c.regs.rax);
    var hi;
    q := DoMovRI(CODE, R, p, RCX, 2);
    q, hi := DoMul(CODE, R, q, RCX, p.c.regs.rax, 2);
    q := DoMovRR(CODE, R, q, RDX, RAX);
  }

  lemma CodeDoubling()
    ensures |CODE| == 36
    ensures CODE[AFTER1 + 1] == MovRI(RCX, 2) && CODE[AFTER1 + 2] == Mul(RCX)
    ensures CODE[AFTER1 + 3] == MovRR(RDX, RAX) && CODE[AFTER1 + 4] == PushR(RDX)
  {
  }

  /** When what is left of rsp points into page zero, the next push faults: so with the first
      frame in the page above 2^32 the routine never returns. */
  lemma FaultsAbove(c: Cpu, m: Meter, n: int, ra: Word) returns (k: nat)
    requires Entered(c, n, ra) && n >= 2 && TWO32 <= c.regs.rsp - 8 < TWO32 + LOWEST
    ensures RunFor(CODE, R, c, m, k) == Faulted
  {
    hide Exec, Load, Read, Store, CODE;
    var q := LosesStack(c, m, n, ra);
    q := UpToPush(q);
    CodeDoubling();
    PushFaults(q.c);
    RunCompose(CODE, R, c, m, q.k, 1);
    k := q.k + 1;
  }

  lemma PushFaults(c: Cpu)
    requires c.regs.rsp < LOWEST && |c.mem| < TWO64
    ensures Exec(PushR(RDX), c) == Fault
  {
  }

  // ----- the program -----

  /** rsp with room for the whole run, at the first instruction. */
  predicate AtStart(c: Cpu) {
    c.pc == 0 && LOWEST + 16 + Depth(25) <= c.regs.rsp < TWO32 && c.regs.rsp <= |c.mem| < TWO64
  }

  /** The program halts after 4 + Instructions(25) instructions with r(25) in rax and the stack
      pointer restored, having entered r Entries(25) times and reached exactly 608 bytes below
      its first rsp. */
  lemma Program(c: Cpu, m: Meter) returns (q: Point)
    requires AtStart(c)
    ensures q == Point(c, m, 4 + Instructions(25), q.c, q.m) && On(CODE, R, q) && q.c.pc == EXIT == |CODE|
    ensures q.c.regs.rax == 211822152361
    ensures q.c.regs.rsp == c.regs.rsp && q.c.regs.rbp == c.regs.rbp && SameOthers(c.regs, q.c.regs)
    ensures SameOutside(c.mem, q.c.mem, c.regs.rsp - 608, c.regs.rsp)
    ensures q.m == Meter(Min(m.low, c.regs.rsp - 608), m.hits + Entries(25))
  {
    hide RunFor, Exec, Load, Read, Store, SameOutside;
    hide Value, Instructions, Entries;
    var E := c.regs.rsp;
    q := CallR(c, m);
    var d := q.c;
    var r := Routine(d, q.m, 25, 2);
    q := Join(CODE, R, q, r.k, r.c, r.m);
    ValueOf25();
    OutsideJoin(c.mem, d.mem, r.c.mem, E - 16, E, E - 608, E - 16);
    q := DoArith(CODE, R, q, Add32RI(RSP, 8));
    q := DoJmp(CODE, R, q, 36);
  }

  lemma ValueOf25()
    ensures Value(25) == 211822152361
  {
    hide Value;
    ClosedForm(25);
    Pow3Of25();
  }

  lemma Pow3Of25()
    ensures Pow3(25) == 847288609443 && Sign(25) == -1
  {
    assert Pow3(8) == 6561 && Sign(8) == 1;
    assert Pow3(16) == 43046721 && Sign(16) == 1;
    assert Pow3(24) == 282429536481 && Sign(24) == 1;
  }

  /** push 25; call r */
  lemma CallR(c: Cpu, m: Meter) returns (q: Point)
    requires AtStart(c)
    ensures On(CODE, R, q) && q.c0 == c && q.m0 == m && q.k == 2 && AtEntry(q.c, 25, 2)
    ensures q.c.regs == c.regs.(rsp := c.regs.rsp - 16)
    ensures SameOutside(c.mem, q.c.mem, c.regs.rsp - 16, c.regs.rsp)
    ensures q.m == Meter(Min(m.low, c.regs.rsp - 16), m.hits)
  {
    hide RunFor, Exec, Load, Read, Store, On, SameOutside;
    var E := c.regs.rsp;
    q := Start(CODE, R, c, m);
    q := DoPushI(CODE, R, q, 25);
    StoreOutside(c.mem, E - 8, 8, 25, E - 16, E);
    ReadStored(c.mem, E - 8, 25);
    var mem1 := q.c.mem;
    StoreOutside(mem1, E - 16, 8, 2, E - 16, E);
    ReadStored(mem1, E - 16, 2);
    ReadElsewhere(mem1, E - 16, 2, E - 8);
    q := DoCall(CODE, R, q, 4);
    OutsideJoin(c.mem, mem1, q.c.mem, E - 16, E, E - 16, E);
  }

  /** The program on a processor. */
  method Execute(p: Processor)
    requires p.code == CODE && p.mark == R && AtStart(p.cpu)
    modifies p
    ensures p.cpu.pc == EXIT && p.cpu.regs.rax == 211822152361
    ensures p.cpu.regs.rsp == old(p.cpu.regs.rsp) && p.cpu.regs.rbp == old(p.cpu.regs.rbp)
    ensures SameOutside(old(p.cpu.mem), p.cpu.mem, old(p.cpu.regs.rsp) - 608, old(p.cpu.regs.rsp))
    ensures p.meter == Meter(Min(old(p.meter.low), old(p.cpu.regs.rsp) - 608), old(p.meter.hits) + Entries(25))
  {
    hide CODE, Entries, Instructions, SameOutside, RunFor, Depth;
    ghost var q := Program(p.cpu, p.meter);
    p.Run(q.k);
  }
}
