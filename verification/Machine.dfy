/** A processor for the instructions the repository's assembly files use: sixteen 64-bit
    registers, byte memory, and instructions addressed by their index in the program. */
module Machine {
  import opened Words

  datatype Reg = RAX | RBX | RCX | RDX | RSI | RDI | RBP | RSP
               | R8 | R9 | R10 | R11 | R12 | R13 | R14 | R15

  datatype Regs = Regs(
    rax: Word, rbx: Word, rcx: Word, rdx: Word, rsi: Word, rdi: Word, rbp: Word, rsp: Word,
    r8: Word, r9: Word, r10: Word, r11: Word, r12: Word, r13: Word, r14: Word, r15: Word)
  {
    function Get(r: Reg): Word {
      match r
      case RAX => rax case RBX => rbx case RCX => rcx case RDX => rdx
      case RSI => rsi case RDI => rdi case RBP => rbp case RSP => rsp
      case R8 => r8 case R9 => r9 case R10 => r10 case R11 => r11
      case R12 => r12 case R13 => r13 case R14 => r14 case R15 => r15
    }

    function Set(r: Reg, v: Word): Regs {
      match r
      case RAX => this.(rax := v) case RBX => this.(rbx := v)
      case RCX => this.(rcx := v) case RDX => this.(rdx := v)
      case RSI => this.(rsi := v) case RDI => this.(rdi := v)
      case RBP => this.(rbp := v) case RSP => this.(rsp := v)
      case R8 => this.(r8 := v) case R9 => this.(r9 := v)
      case R10 => this.(r10 := v) case R11 => this.(r11 := v)
      case R12 => this.(r12 := v) case R13 => this.(r13 := v)
      case R14 => this.(r14 := v) case R15 => this.(r15 := v)
    }
  }

  /** [base + disp] with 64-bit addressing, or [disp + 4*index] with a 32-bit index. */
  datatype Ea = At(base: Reg, disp: nat) | Cell(disp: nat, index: Reg)

  datatype Instr =
    | MovRR(d: Reg, s: Reg) | MovRI(d: Reg, imm: Word) | MovRM(d: Reg, m: Ea) | MovMR(m: Ea, s: Reg)
    | Lea(d: Reg, m: Ea)
    | PushR(s: Reg) | PushI(imm: Word) | PushM(m: Ea) | PopR(d: Reg) | PopM(m: Ea)
    | AddRR(d: Reg, s: Reg) | SubRI(d: Reg, imm: Word) | Dec(d: Reg) | Mul(s: Reg)
    | CmpRI(d: Reg, imm: Word)
    | Call(target: nat) | Ret | Jmp(target: nat) | Jle(target: nat) | Je(target: nat)
    | Jg(target: nat) | Jge(target: nat)
    | Syscall
    // 32-bit forms; a 32-bit result clears the upper half of its register
    | Mov32RR(d: Reg, s: Reg) | Mov32RI(d: Reg, imm: Word) | Mov32RM(d: Reg, m: Ea) | Mov32MR(m: Ea, s: Reg)
    | Add32RI(d: Reg, imm: Word) | Inc32(d: Reg) | Neg32(d: Reg)
    | Cmp32RR(d: Reg, s: Reg) | Cmp32RI(d: Reg, imm: Word)

  /** The signed operands of the last comparison; other arithmetic leaves flags no modelled
      jump may use. */
  datatype Flags = Unknown | Compared(a: int, b: int)

  /** mask is the kernel's signal mask of the process; scratch is what the processor leaves in
      r11 across a system call. */
  datatype Cpu = Cpu(pc: nat, regs: Regs, mem: Mem, flags: Flags, mask: Word, scratch: Word)

  datatype Outcome = Next(cpu: Cpu) | Fault

  function Wrap(v: int): Word {
    v % TWO64
  }

  function Wrap32(v: int): Word {
    v % TWO32
  }

  function Signed(w: Word): int {
    if w < 0x8000_0000_0000_0000 then w else w - TWO64
  }

  function Signed32(w: int): int
    requires 0 <= w < TWO32
  {
    if w < 0x8000_0000 then w else w - TWO32
  }

  /** A register reads as the one signed number in its width's range that is congruent to it, and
      results are kept as the one unsigned number that is. */
  lemma WidthsExact(w: Word, v: int)
    ensures -0x8000_0000_0000_0000 <= Signed(w) < 0x8000_0000_0000_0000 && (w - Signed(w)) % TWO64 == 0
    ensures w < TWO32 ==> -0x8000_0000 <= Signed32(w) < 0x8000_0000 && (w - Signed32(w)) % TWO32 == 0
    ensures 0 <= Wrap(v) < TWO64 && (v - Wrap(v)) % TWO64 == 0
    ensures 0 <= Wrap32(v) < TWO32 && (v - Wrap32(v)) % TWO32 == 0
  {
  }

  /** Page zero is never mapped. */
  const LOWEST: int := 4096

  predicate MappedAt(m: Mem, a: int, n: nat) {
    LOWEST <= a && a + n <= |m|
  }

  function Address(c: Cpu, m: Ea): Word {
    match m
    case At(base, disp) => Wrap(c.regs.Get(base) + disp)
    case Cell(disp, index) => Wrap32(disp + 4 * Wrap32(c.regs.Get(index)))
  }

  function Read(m: Mem, a: int): Word
    requires MappedAt(m, a, 8)
  {
    assert Pow256(8) == TWO64;
    Load(m, a, 8)
  }

  function Read32(m: Mem, a: int): (w: Word)
    requires MappedAt(m, a, 4)
    ensures w < TWO32
  {
    assert Pow256(4) == TWO32;
    Load(m, a, 4)
  }

  function Advance(c: Cpu): Cpu {
    c.(pc := c.pc + 1)
  }

  function SetReg(c: Cpu, r: Reg, v: Word): Cpu {
    c.(regs := c.regs.Set(r, v))
  }

  function Push(c: Cpu, v: Word): Outcome {
    var a := Wrap(c.regs.rsp - 8);
    if MappedAt(c.mem, a, 8) then
      Next(Advance(c).(mem := Store(c.mem, a, 8, v), regs := c.regs.(rsp := a)))
    else Fault
  }

  predicate IsArith(i: Instr) {
    i.AddRR? || i.SubRI? || i.Dec? || i.Add32RI? || i.Inc32? || i.Neg32?
  }

  /** The result of an addition, subtraction or negation. */
  function Arith(i: Instr, r: Regs): Word
    requires IsArith(i)
  {
    match i
    case AddRR(d, s) => Wrap(r.Get(d) + r.Get(s))
    case SubRI(d, imm) => Wrap(r.Get(d) - imm)
    case Dec(d) => Wrap(r.Get(d) - 1)
    case Add32RI(d, imm) => Wrap32(r.Get(d) + imm)
    case Inc32(d) => Wrap32(r.Get(d) + 1)
    case Neg32(d) => Wrap32(TWO32 - Wrap32(r.Get(d)))
  }

  predicate IsCompare(i: Instr) {
    i.CmpRI? || i.Cmp32RR? || i.Cmp32RI?
  }

  function Compare(i: Instr, r: Regs): Flags
    requires IsCompare(i)
  {
    match i
    case CmpRI(d, imm) => Compared(Signed(r.Get(d)), Signed(imm))
    case Cmp32RR(d, s) => Compared(Signed32(Wrap32(r.Get(d))), Signed32(Wrap32(r.Get(s))))
    case Cmp32RI(d, imm) => Compared(Signed32(Wrap32(r.Get(d))), Signed32(Wrap32(imm)))
  }

  predicate IsJcc(i: Instr) {
    i.Jle? || i.Je? || i.Jg? || i.Jge?
  }

  /** Whether a conditional jump is taken. */
  predicate Taken(i: Instr, f: Flags)
    requires IsJcc(i)
  {
    f.Compared? &&
    match i
    case Jle(_) => f.a <= f.b
    case Je(_) => f.a == f.b
    case Jg(_) => f.a > f.b
    case Jge(_) => f.a >= f.b
  }

  function JumpIf(c: Cpu, taken: bool, target: nat): Outcome {
    if !c.flags.Compared? then Fault
    else if taken then Next(c.(pc := target)) else Next(Advance(c))
  }

  // ----- rt_sigprocmask, the only system call of the modelled code -----

  const SYS_RT_SIGPROCMASK: Word := 14
  const SIG_SETMASK: Word := 2
  const EFAULT: int := 14

  /** SIGKILL (9) and SIGSTOP (19) cannot be blocked. */
  const BLOCKABLE: Word := 0xffff_ffff_fffb_feff

  /** What the kernel makes of a mask it is asked to install. */
  function Settable(w: Word): Word {
    And(w, BLOCKABLE) % TWO64
  }

  /** rt_sigprocmask(rdi = how, rsi = set, rdx = oldset, r10 = size): reads the new mask if set
      is given, writes the old one if oldset is given, and answers EFAULT for a bad address.
      SIG_BLOCK and SIG_UNBLOCK with a set are not used by the modelled code. */
  function SigProcMask(c: Cpu): Outcome {
    var set0, old0 := c.regs.rsi, c.regs.rdx;
    var done := Advance(c).(regs := c.regs.(rcx := Wrap(c.pc + 1), r11 := c.scratch));
    if set0 != 0 && c.regs.rdi != SIG_SETMASK then Fault
    else if set0 != 0 && !MappedAt(c.mem, set0, 8) then Next(SetReg(done, RAX, Wrap(-EFAULT)))
    else
      var masked := if set0 == 0 then done else done.(mask := Settable(Read(c.mem, set0)));
      if old0 == 0 then Next(SetReg(masked, RAX, 0))
      else if !MappedAt(c.mem, old0, 8) then Next(SetReg(masked, RAX, Wrap(-EFAULT)))
      else Next(SetReg(masked.(mem := Store(c.mem, old0, 8, c.mask)), RAX, 0))
  }

  // ----- one instruction -----

  function Exec(i: Instr, c: Cpu): Outcome {
    match i
    case MovRR(d, s) => Next(SetReg(Advance(c), d, c.regs.Get(s)))
    case MovRI(d, imm) => Next(SetReg(Advance(c), d, imm))
    case MovRM(d, m) =>
      var a := Address(c, m);
      if MappedAt(c.mem, a, 8) then Next(SetReg(Advance(c), d, Read(c.mem, a))) else Fault
    case MovMR(m, s) =>
      var a := Address(c, m);
      if MappedAt(c.mem, a, 8) then Next(Advance(c).(mem := Store(c.mem, a, 8, c.regs.Get(s)))) else Fault
    case Lea(d, m) => Next(SetReg(Advance(c), d, Address(c, m)))
    case PushR(s) => Push(c, c.regs.Get(s))
    case PushI(imm) => Push(c, imm)
    case PushM(m) =>
      // the operand is read with rsp as it was before the push
      var a := Address(c, m);
      if MappedAt(c.mem, a, 8) then Push(c, Read(c.mem, a)) else Fault
    case PopR(d) =>
      var sp := c.regs.rsp;
      if MappedAt(c.mem, sp, 8) then
        Next(SetReg(SetReg(Advance(c), RSP, Wrap(sp + 8)), d, Read(c.mem, sp)))
      else Fault
    case PopM(m) =>
      // the address is computed with rsp as it is after the pop
      var sp := c.regs.rsp;
      var popped := SetReg(Advance(c), RSP, Wrap(sp + 8));
      var a := Address(popped, m);
      if MappedAt(c.mem, sp, 8) && MappedAt(c.mem, a, 8)
      then Next(popped.(mem := Store(c.mem, a, 8, Read(c.mem, sp)))) else Fault
    case AddRR(d, s) => Next(SetReg(Advance(c), d, Arith(i, c.regs)).(flags := Unknown))
    case SubRI(d, _) => Next(SetReg(Advance(c), d, Arith(i, c.regs)).(flags := Unknown))
    case Dec(d) => Next(SetReg(Advance(c), d, Arith(i, c.regs)).(flags := Unknown))
    case Mul(s) =>
      var product := c.regs.rax * c.regs.Get(s);
      Next(SetReg(SetReg(Advance(c), RAX, Wrap(product)), RDX, Wrap(product / TWO64)).(flags := Unknown))
    case CmpRI(_, _) => Next(Advance(c).(flags := Compare(i, c.regs)))
    case Call(target) =>
      (match Push(c, Wrap(c.pc + 1))
       case Next(pushed) => Next(pushed.(pc := target))
       case Fault => Fault)
    case Ret =>
      var sp := c.regs.rsp;
      if MappedAt(c.mem, sp, 8) then Next(SetReg(c, RSP, Wrap(sp + 8)).(pc := Read(c.mem, sp))) else Fault
    case Jmp(target) => Next(c.(pc := target))
    case Jle(target) => JumpIf(c, Taken(i, c.flags), target)
    case Je(target) => JumpIf(c, Taken(i, c.flags), target)
    case Jg(target) => JumpIf(c, Taken(i, c.flags), target)
    case Jge(target) => JumpIf(c, Taken(i, c.flags), target)
    case Syscall => if c.regs.rax == SYS_RT_SIGPROCMASK then SigProcMask(c) else Fault
    case Mov32RR(d, s) => Next(SetReg(Advance(c), d, Wrap32(c.regs.Get(s))))
    case Mov32RI(d, imm) => Next(SetReg(Advance(c), d, Wrap32(imm)))
    case Mov32RM(d, m) =>
      var a := Address(c, m);
      if MappedAt(c.mem, a, 4) then Next(SetReg(Advance(c), d, Read32(c.mem, a))) else Fault
    case Mov32MR(m, s) =>
      var a := Address(c, m);
      if MappedAt(c.mem, a, 4) then Next(Advance(c).(mem := Store(c.mem, a, 4, Wrap32(c.regs.Get(s))))) else Fault
    case Add32RI(d, _) => Next(SetReg(Advance(c), d, Arith(i, c.regs)).(flags := Unknown))
    case Inc32(d) => Next(SetReg(Advance(c), d, Arith(i, c.regs)).(flags := Unknown))
    case Neg32(d) => Next(SetReg(Advance(c), d, Arith(i, c.regs)).(flags := Unknown))
    case Cmp32RR(_, _) => Next(Advance(c).(flags := Compare(i, c.regs)))
    case Cmp32RI(_, _) => Next(Advance(c).(flags := Compare(i, c.regs)))
  }

  function Step(code: seq<Instr>, c: Cpu): Outcome {
    if c.pc < |code| then Exec(code[c.pc], c) else Fault
  }

  // ----- runs, with a meter the processor never reads -----

  /** low is the lowest address written so far; hits counts the executions of one marked
      instruction. */
  datatype Meter = Meter(low: int, hits: nat)

  /** The address of the first byte the instruction writes, if it writes. */
  function WriteAddress(i: Instr, c: Cpu, none: int): int {
    match i
    case PushR(_) => Wrap(c.regs.rsp - 8)
    case PushI(_) => Wrap(c.regs.rsp - 8)
    case PushM(_) => Wrap(c.regs.rsp - 8)
    case Call(_) => Wrap(c.regs.rsp - 8)
    case MovMR(m, _) => Address(c, m)
    case Mov32MR(m, _) => Address(c, m)
    case PopM(m) => Address(SetReg(c, RSP, Wrap(c.regs.rsp + 8)), m)
    case _ => none
  }

  function Min(a: int, b: int): int {
    if a < b then a else b
  }

  function Tally(code: seq<Instr>, mark: nat, c: Cpu, m: Meter): Meter
    requires c.pc < |code|
  {
    Meter(Min(m.low, WriteAddress(code[c.pc], c, m.low)), m.hits + if c.pc == mark then 1 else 0)
  }

  datatype Run = Ran(cpu: Cpu, meter: Meter) | Faulted

  /** n instructions of the program. */
  function RunFor(code: seq<Instr>, mark: nat, c: Cpu, m: Meter, n: nat): Run
    decreases n, c.pc  // with c.pc, a literal n is not unrolled
  {
    if n == 0 then Ran(c, m)
    else match Step(code, c)
      case Fault => Faulted
      case Next(c') => RunFor(code, mark, c', Tally(code, mark, c, m), n - 1)
  }

  lemma {:induction false} RunCompose(code: seq<Instr>, mark: nat, c: Cpu, m: Meter, n: nat, n': nat)
    requires RunFor(code, mark, c, m, n).Ran?
    ensures var r := RunFor(code, mark, c, m, n);
      RunFor(code, mark, c, m, n + n') == RunFor(code, mark, r.cpu, r.meter, n')
    decreases n
  {
    hide Exec, WriteAddress;
    if n != 0 {
      RunCompose(code, mark, Step(code, c).cpu, Tally(code, mark, c, m), n - 1, n');
    }
  }
}
