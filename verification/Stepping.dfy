/** Stepping through a program one instruction at a time, for proofs about runs. */
module Stepping {
  import opened Words
  import opened Machine

  // ----- 64-bit words in memory -----

  lemma ReadStored(m: Mem, a: int, v: Word)
    requires MappedAt(m, a, 8)
    ensures Read(Store(m, a, 8, v), a) == v
  {
    assert Pow256(8) == TWO64;
    LoadStored(m, a, 8, v);
  }

  lemma ReadElsewhere(m: Mem, a: int, v: Word, b: int)
    requires MappedAt(m, a, 8) && MappedAt(m, b, 8) && (b + 8 <= a || a + 8 <= b)
    ensures Read(Store(m, a, 8, v), b) == Read(m, b)
  {
    LoadElsewhere(m, a, 8, v, b, 8);
  }

  lemma ReadSame(m: Mem, m': Mem, a: int)
    requires MappedAt(m, a, 8) && MappedAt(m', a, 8)
    requires forall k {:trigger m'[k]} :: a <= k < a + 8 ==> m[k] == m'[k]
    ensures Read(m, a) == Read(m', a)
  {
    LoadSame(m, m', a, 8);
  }

  lemma ReadOutside(m: Mem, m': Mem, lo: int, hi: int, a: int)
    requires SameOutside(m, m', lo, hi) && MappedAt(m, a, 8) && (a + 8 <= lo || hi <= a)
    ensures MappedAt(m', a, 8) && Read(m', a) == Read(m, a)
  {
    LoadOutside(m, m', lo, hi, a, 8);
  }

  // ----- points -----

  /** A point on the run from c0: after k instructions, state c and meter m. */
  datatype Point = Point(c0: Cpu, m0: Meter, k: nat, c: Cpu, m: Meter)

  ghost predicate On(code: seq<Instr>, mark: nat, p: Point) {
    RunFor(code, mark, p.c0, p.m0, p.k) == Ran(p.c, p.m)
  }

  lemma Start(code: seq<Instr>, mark: nat, c: Cpu, m: Meter) returns (p: Point)
    ensures p == Point(c, m, 0, c, m) && On(code, mark, p)
  {
    p := Point(c, m, 0, c, m);
  }

  /** A run continued by another run. */
  lemma Join(code: seq<Instr>, mark: nat, p: Point, n: nat, c: Cpu, m: Meter) returns (q: Point)
    requires On(code, mark, p) && RunFor(code, mark, p.c, p.m, n) == Ran(c, m)
    ensures q == Point(p.c0, p.m0, p.k + n, c, m) && On(code, mark, q)
  {
    RunCompose(code, mark, p.c0, p.m0, p.k, n);
    q := Point(p.c0, p.m0, p.k + n, c, m);
  }

  predicate Fetches(code: seq<Instr>, p: Point, i: Instr) {
    p.c.pc < |code| && code[p.c.pc] == i
  }

  /** The point one instruction on, writing nothing below wrote. */
  function Then(mark: nat, p: Point, c: Cpu, wrote: int): Point {
    Point(p.c0, p.m0, p.k + 1, c,
          Meter(Min(p.m.low, wrote), p.m.hits + if p.c.pc == mark then 1 else 0))
  }

  lemma One(code: seq<Instr>, mark: nat, p: Point, i: Instr, c: Cpu) returns (q: Point)
    requires On(code, mark, p) && Fetches(code, p, i) && Exec(i, p.c) == Next(c)
    ensures On(code, mark, q) && q == Then(mark, p, c, WriteAddress(i, p.c, p.m.low))
  {
    RunCompose(code, mark, p.c0, p.m0, p.k, 1);
    q := Then(mark, p, c, WriteAddress(i, p.c, p.m.low));
    assert RunFor(code, mark, p.c, p.m, 1) == RunFor(code, mark, q.c, q.m, 0);
  }

  lemma DoMovRR(code: seq<Instr>, mark: nat, p: Point, d: Reg, s: Reg) returns (q: Point)
    requires On(code, mark, p) && Fetches(code, p, MovRR(d, s))
    ensures On(code, mark, q) && q == Then(mark, p, SetReg(Advance(p.c), d, p.c.regs.Get(s)), p.m.low)
  {
    hide On, Load, Store, Read;
    q := One(code, mark, p, MovRR(d, s), SetReg(Advance(p.c), d, p.c.regs.Get(s)));
  }

  lemma DoMovRI(code: seq<Instr>, mark: nat, p: Point, d: Reg, v: Word) returns (q: Point)
    requires On(code, mark, p) && Fetches(code, p, MovRI(d, v))
    ensures On(code, mark, q) && q == Then(mark, p, SetReg(Advance(p.c), d, v), p.m.low)
  {
    hide On, Load, Store, Read;
    q := One(code, mark, p, MovRI(d, v), SetReg(Advance(p.c), d, v));
  }

  lemma DoMovRM(code: seq<Instr>, mark: nat, p: Point, d: Reg, base: Reg, disp: nat, a: int) returns (q: Point)
    requires On(code, mark, p) && Fetches(code, p, MovRM(d, At(base, disp)))
    requires a == p.c.regs.Get(base) + disp < TWO64 && MappedAt(p.c.mem, a, 8)
    ensures On(code, mark, q) && q == Then(mark, p, SetReg(Advance(p.c), d, Read(p.c.mem, a)), p.m.low)
  {
    hide On, Load, Store, Read;
    q := One(code, mark, p, MovRM(d, At(base, disp)), SetReg(Advance(p.c), d, Read(p.c.mem, a)));
  }

  lemma DoMovMR(code: seq<Instr>, mark: nat, p: Point, base: Reg, disp: nat, s: Reg, a: int) returns (q: Point)
    requires On(code, mark, p) && Fetches(code, p, MovMR(At(base, disp), s))
    requires a == p.c.regs.Get(base) + disp < TWO64 && MappedAt(p.c.mem, a, 8)
    ensures On(code, mark, q)
    ensures q == Then(mark, p, Advance(p.c).(mem := Store(p.c.mem, a, 8, p.c.regs.Get(s))), a)
  {
    hide On, Load, Store, Read;
    q := One(code, mark, p, MovMR(At(base, disp), s),
             Advance(p.c).(mem := Store(p.c.mem, a, 8, p.c.regs.Get(s))));
  }

  lemma DoLea(code: seq<Instr>, mark: nat, p: Point, d: Reg, base: Reg, disp: nat, a: int) returns (q: Point)
    requires On(code, mark, p) && Fetches(code, p, Lea(d, At(base, disp)))
    requires a == p.c.regs.Get(base) + disp < TWO64
    ensures On(code, mark, q) && q == Then(mark, p, SetReg(Advance(p.c), d, a), p.m.low)
  {
    hide On, Load, Store, Read;
    q := One(code, mark, p, Lea(d, At(base, disp)), SetReg(Advance(p.c), d, a));
  }

  /** The state after a push of v. */
  function Pushed(c: Cpu, v: Word): Cpu
    requires MappedAt(c.mem, c.regs.rsp - 8, 8)
  {
    Advance(c).(mem := Store(c.mem, c.regs.rsp - 8, 8, v), regs := c.regs.(rsp := c.regs.rsp - 8))
  }

  lemma DoPushR(code: seq<Instr>, mark: nat, p: Point, s: Reg) returns (q: Point)
    requires On(code, mark, p) && Fetches(code, p, PushR(s)) && MappedAt(p.c.mem, p.c.regs.rsp - 8, 8)
    ensures On(code, mark, q) && q == Then(mark, p, Pushed(p.c, p.c.regs.Get(s)), p.c.regs.rsp - 8)
  {
    hide On, Load, Store, Read;
    q := One(code, mark, p, PushR(s), Pushed(p.c, p.c.regs.Get(s)));
  }

  lemma DoPushI(code: seq<Instr>, mark: nat, p: Point, v: Word) returns (q: Point)
    requires On(code, mark, p) && Fetches(code, p, PushI(v)) && MappedAt(p.c.mem, p.c.regs.rsp - 8, 8)
    ensures On(code, mark, q) && q == Then(mark, p, Pushed(p.c, v), p.c.regs.rsp - 8)
  {
    hide On, Load, Store, Read;
    q := One(code, mark, p, PushI(v), Pushed(p.c, v));
  }

  lemma DoPushM(code: seq<Instr>, mark: nat, p: Point, base: Reg, disp: nat, a: int) returns (q: Point)
    requires On(code, mark, p) && Fetches(code, p, PushM(At(base, disp)))
    requires MappedAt(p.c.mem, p.c.regs.rsp - 8, 8)
    requires a == p.c.regs.Get(base) + disp < TWO64 && MappedAt(p.c.mem, a, 8)
    ensures On(code, mark, q) && q == Then(mark, p, Pushed(p.c, Read(p.c.mem, a)), p.c.regs.rsp - 8)
  {
    hide On, Load, Store, Read;
    q := One(code, mark, p, PushM(At(base, disp)), Pushed(p.c, Read(p.c.mem, a)));
  }

  lemma DoPopR(code: seq<Instr>, mark: nat, p: Point, d: Reg) returns (q: Point)
    requires On(code, mark, p) && Fetches(code, p, PopR(d))
    requires MappedAt(p.c.mem, p.c.regs.rsp, 8) && p.c.regs.rsp + 8 < TWO64
    ensures On(code, mark, q)
    ensures q == Then(mark, p,
      SetReg(SetReg(Advance(p.c), RSP, p.c.regs.rsp + 8), d, Read(p.c.mem, p.c.regs.rsp)), p.m.low)
  {
    hide On, Load, Store, Read;
    assert Wrap(p.c.regs.rsp + 8) == p.c.regs.rsp + 8;
    q := One(code, mark, p, PopR(d),
             SetReg(SetReg(Advance(p.c), RSP, p.c.regs.rsp + 8), d, Read(p.c.mem, p.c.regs.rsp)));
  }

  function Popped(c: Cpu, a: int): Cpu
    requires MappedAt(c.mem, c.regs.rsp, 8) && c.regs.rsp + 8 < TWO64 && MappedAt(c.mem, a, 8)
  {
    Advance(c).(regs := c.regs.(rsp := c.regs.rsp + 8), mem := Store(c.mem, a, 8, Read(c.mem, c.regs.rsp)))
  }

  lemma PopMEffect(c: Cpu, base: Reg, disp: nat, a: int, low: int)
    requires MappedAt(c.mem, c.regs.rsp, 8) && c.regs.rsp + 8 < TWO64
    requires a == c.regs.(rsp := c.regs.rsp + 8).Get(base) + disp < TWO64 && MappedAt(c.mem, a, 8)
    ensures Exec(PopM(At(base, disp)), c) == Next(Popped(c, a))
    ensures WriteAddress(PopM(At(base, disp)), c, low) == a
  {
    hide Load, Store, Read;
    assert Wrap(c.regs.rsp + 8) == c.regs.rsp + 8;
    assert SetReg(c, RSP, Wrap(c.regs.rsp + 8)).regs == c.regs.(rsp := c.regs.rsp + 8);
    assert Address(SetReg(Advance(c), RSP, Wrap(c.regs.rsp + 8)), At(base, disp)) == a;
  }

  lemma DoPopM(code: seq<Instr>, mark: nat, p: Point, base: Reg, disp: nat, a: int) returns (q: Point)
    requires On(code, mark, p) && Fetches(code, p, PopM(At(base, disp)))
    requires MappedAt(p.c.mem, p.c.regs.rsp, 8) && p.c.regs.rsp + 8 < TWO64
    requires a == p.c.regs.(rsp := p.c.regs.rsp + 8).Get(base) + disp < TWO64 && MappedAt(p.c.mem, a, 8)
    ensures On(code, mark, q) && q == Then(mark, p, Popped(p.c, a), a)
  {
    hide On, Exec, WriteAddress, Load, Store, Read;
    PopMEffect(p.c, base, disp, a, p.m.low);
    q := One(code, mark, p, PopM(At(base, disp)), Popped(p.c, a));
  }

  lemma DoCall(code: seq<Instr>, mark: nat, p: Point, target: nat) returns (q: Point)
    requires On(code, mark, p) && Fetches(code, p, Call(target))
    requires MappedAt(p.c.mem, p.c.regs.rsp - 8, 8) && p.c.pc + 1 < TWO64
    ensures On(code, mark, q)
    ensures q == Then(mark, p, Pushed(p.c, p.c.pc + 1).(pc := target), p.c.regs.rsp - 8)
  {
    hide On, Load, Store, Read;
    q := One(code, mark, p, Call(target), Pushed(p.c, p.c.pc + 1).(pc := target));
  }

  lemma DoRet(code: seq<Instr>, mark: nat, p: Point) returns (q: Point)
    requires On(code, mark, p) && Fetches(code, p, Ret)
    requires MappedAt(p.c.mem, p.c.regs.rsp, 8) && p.c.regs.rsp + 8 < TWO64
    ensures On(code, mark, q)
    ensures q == Then(mark, p,
      SetReg(p.c, RSP, p.c.regs.rsp + 8).(pc := Read(p.c.mem, p.c.regs.rsp)), p.m.low)
  {
    hide On, Load, Store, Read;
    assert Wrap(p.c.regs.rsp + 8) == p.c.regs.rsp + 8;
    q := One(code, mark, p, Ret, SetReg(p.c, RSP, p.c.regs.rsp + 8).(pc := Read(p.c.mem, p.c.regs.rsp)));
  }

  lemma WrapProduct(v: nat, k: nat)
    ensures Wrap(Wrap(v) * k) == Wrap(v * k)
  {
    var t := v / TWO64;
    assert v == Wrap(v) + TWO64 * t;
    assert v * k == Wrap(v) * k + TWO64 * (t * k);
    WrapMore(Wrap(v) * k, t * k);
  }

  lemma WrapMore(x: nat, j: nat)
    ensures Wrap(x + TWO64 * j) == Wrap(x)
  {
  }

  /** mul by a register holding k, with v mod 2^64 in rax; rdx gets the upper half. */
  lemma DoMul(code: seq<Instr>, mark: nat, p: Point, s: Reg, v: nat, k: nat) returns (q: Point, hi: Word)
    requires On(code, mark, p) && Fetches(code, p, Mul(s))
    requires p.c.regs.rax == Wrap(v) && p.c.regs.Get(s) == k
    ensures On(code, mark, q)
    ensures q == Then(mark, p,
      SetReg(SetReg(Advance(p.c), RAX, Wrap(v * k)), RDX, hi).(flags := Unknown), p.m.low)
  {
    hide On, Load, Store, Read;
    WrapProduct(v, k);
    hi := Wrap(p.c.regs.rax * k / TWO64);
    q := One(code, mark, p, Mul(s),
             SetReg(SetReg(Advance(p.c), RAX, Wrap(v * k)), RDX, hi).(flags := Unknown));
  }

  lemma DoArith(code: seq<Instr>, mark: nat, p: Point, i: Instr) returns (q: Point)
    requires On(code, mark, p) && Fetches(code, p, i) && IsArith(i)
    ensures On(code, mark, q)
    ensures q == Then(mark, p, SetReg(Advance(p.c), i.d, Arith(i, p.c.regs)).(flags := Unknown), p.m.low)
  {
    hide On, Load, Store, Read, Arith;
    q := One(code, mark, p, i, SetReg(Advance(p.c), i.d, Arith(i, p.c.regs)).(flags := Unknown));
  }

  lemma DoCompare(code: seq<Instr>, mark: nat, p: Point, i: Instr) returns (q: Point)
    requires On(code, mark, p) && Fetches(code, p, i) && IsCompare(i)
    ensures On(code, mark, q)
    ensures q == Then(mark, p, Advance(p.c).(flags := Compare(i, p.c.regs)), p.m.low)
  {
    hide On, Load, Store, Read, Compare;
    q := One(code, mark, p, i, Advance(p.c).(flags := Compare(i, p.c.regs)));
  }

  lemma DoJcc(code: seq<Instr>, mark: nat, p: Point, i: Instr) returns (q: Point)
    requires On(code, mark, p) && Fetches(code, p, i) && IsJcc(i) && p.c.flags.Compared?
    ensures On(code, mark, q)
    ensures q == Then(mark, p, if Taken(i, p.c.flags) then p.c.(pc := i.target) else Advance(p.c), p.m.low)
  {
    hide On, Load, Store, Read, Taken;
    q := One(code, mark, p, i, if Taken(i, p.c.flags) then p.c.(pc := i.target) else Advance(p.c));
  }

  lemma DoJmp(code: seq<Instr>, mark: nat, p: Point, target: nat) returns (q: Point)
    requires On(code, mark, p) && Fetches(code, p, Jmp(target))
    ensures On(code, mark, q) && q == Then(mark, p, p.c.(pc := target), p.m.low)
  {
    hide On, Load, Store, Read;
    q := One(code, mark, p, Jmp(target), p.c.(pc := target));
  }

  /** A comparison and the conditional jump after it, neither of them the marked instruction. */
  lemma DoTest(code: seq<Instr>, mark: nat, p: Point, i: Instr, j: Instr) returns (q: Point)
    requires On(code, mark, p) && Fetches(code, p, i) && IsCompare(i)
    requires p.c.pc + 1 < |code| && code[p.c.pc + 1] == j && IsJcc(j)
    requires mark != p.c.pc && mark != p.c.pc + 1
    ensures On(code, mark, q)
    ensures q == Point(p.c0, p.m0, p.k + 2,
      p.c.(flags := Compare(i, p.c.regs),
           pc := if Taken(j, Compare(i, p.c.regs)) then j.target else p.c.pc + 2), p.m)
  {
    hide On, Load, Store, Read, Taken;
    q := DoCompare(code, mark, p, i);
    q := DoJcc(code, mark, q, j);
  }

  // ----- 32-bit moves -----

  lemma DoMov32RR(code: seq<Instr>, mark: nat, p: Point, d: Reg, s: Reg) returns (q: Point)
    requires On(code, mark, p) && Fetches(code, p, Mov32RR(d, s))
    ensures On(code, mark, q)
    ensures q == Then(mark, p, SetReg(Advance(p.c), d, Wrap32(p.c.regs.Get(s))), p.m.low)
  {
    hide On, Load, Store, Read;
    q := One(code, mark, p, Mov32RR(d, s), SetReg(Advance(p.c), d, Wrap32(p.c.regs.Get(s))));
  }

  lemma DoMov32RI(code: seq<Instr>, mark: nat, p: Point, d: Reg, v: Word) returns (q: Point)
    requires On(code, mark, p) && Fetches(code, p, Mov32RI(d, v)) && v < TWO32
    ensures On(code, mark, q) && q == Then(mark, p, SetReg(Advance(p.c), d, v), p.m.low)
  {
    hide On, Load, Store, Read;
    q := One(code, mark, p, Mov32RI(d, v), SetReg(Advance(p.c), d, v));
  }

  /** An array cell is where its index says. */
  lemma CellAddress(c: Cpu, disp: nat, x: Reg, a: int)
    requires c.regs.Get(x) < TWO32 && a == disp + 4 * c.regs.Get(x) < TWO32
    ensures Address(c, Cell(disp, x)) == a
  {
  }

  lemma DoMov32RM(code: seq<Instr>, mark: nat, p: Point, d: Reg, disp: nat, x: Reg, a: int) returns (q: Point)
    requires On(code, mark, p) && Fetches(code, p, Mov32RM(d, Cell(disp, x)))
    requires p.c.regs.Get(x) < TWO32
    requires a == disp + 4 * p.c.regs.Get(x) < TWO32 && MappedAt(p.c.mem, a, 4)
    ensures On(code, mark, q) && q == Then(mark, p, SetReg(Advance(p.c), d, Read32(p.c.mem, a)), p.m.low)
  {
    CellAddress(p.c, disp, x, a);
    hide On, Load, Store, Read, Read32, Wrap32, Address;
    q := One(code, mark, p, Mov32RM(d, Cell(disp, x)), SetReg(Advance(p.c), d, Read32(p.c.mem, a)));
  }

  lemma DoMov32MR(code: seq<Instr>, mark: nat, p: Point, disp: nat, x: Reg, s: Reg, a: int) returns (q: Point)
    requires On(code, mark, p) && Fetches(code, p, Mov32MR(Cell(disp, x), s))
    requires p.c.regs.Get(x) < TWO32 && p.c.regs.Get(s) < TWO32
    requires a == disp + 4 * p.c.regs.Get(x) < TWO32 && MappedAt(p.c.mem, a, 4)
    ensures On(code, mark, q)
    ensures q == Then(mark, p, Advance(p.c).(mem := Store(p.c.mem, a, 4, p.c.regs.Get(s))), a)
  {
    CellAddress(p.c, disp, x, a);
    assert Wrap32(p.c.regs.Get(s)) == p.c.regs.Get(s);
    hide On, Load, Store, Read, Wrap32, Address;
    q := One(code, mark, p, Mov32MR(Cell(disp, x), s),
             Advance(p.c).(mem := Store(p.c.mem, a, 4, p.c.regs.Get(s))));
  }

  lemma DoSyscall(code: seq<Instr>, mark: nat, p: Point) returns (q: Point)
    requires On(code, mark, p) && Fetches(code, p, Syscall)
    requires p.c.regs.rax == SYS_RT_SIGPROCMASK && SigProcMask(p.c).Next?
    ensures On(code, mark, q) && q == Then(mark, p, SigProcMask(p.c).cpu, p.m.low)
  {
    hide On, Load, Store, Read, SigProcMask;
    q := One(code, mark, p, Syscall, SigProcMask(p.c).cpu);
  }
}
