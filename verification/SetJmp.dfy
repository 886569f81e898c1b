/** setjmp, longjmp and the system-call stub they use, over raw memory. */
module SetJmp {
  import opened Words
  import opened Machine
  import opened Stepping
  import SignalSets

  const STUB: nat := 0
  const SETJMP: nat := 6
  const LONGJMP: nat := 30

  const STUB_CODE: seq<Instr> := [
    PushR(R10),              // 0: sys_rt_sigprocmask
    MovRR(R10, RCX),
    MovRI(RAX, 14),
    Syscall,
    PopR(R10),
    Ret
  ]

  const SETJMP_CODE: seq<Instr> := [
    MovMR(At(RDI, 0), RBX),  // 6: setjmp
    MovMR(At(RDI, 8), RSP),
    MovMR(At(RDI, 16), RBP),
    MovMR(At(RDI, 24), R12),
    MovMR(At(RDI, 32), R13),
    MovMR(At(RDI, 40), R14),
    MovMR(At(RDI, 48), R15),
    PushM(At(RSP, 0)),       // 13: the return address, by way of the stack
    PopM(At(RDI, 56)),
    PushR(RDI),              // 15
    PushR(RSI),
    PushR(RDX),
    PushR(RCX),
    MovRI(RDI, 0),           // 19: how = SIG_BLOCK
    MovRI(RSI, 0),           // no new set
    Lea(RDX, At(RDI, 64)),   // rdi is already 0 here
    MovRI(RCX, 8),
    Call(0),
    PopR(RCX),               // 24
    PopR(RDX),
    PopR(RSI),
    PopR(RDI),
    MovRI(RAX, 0),           // 28
    Ret
  ]

  const LONGJMP_CODE: seq<Instr> := [
    MovRM(RBX, At(RDI, 0)),  // 30: longjmp
    MovRM(RSP, At(RDI, 8)),
    MovRM(RBP, At(RDI, 16)),
    MovRM(R12, At(RDI, 24)),
    MovRM(R13, At(RDI, 32)),
    MovRM(R14, At(RDI, 40)),
    MovRM(R15, At(RDI, 48)),
    PushM(At(RDI, 56)),      // 37: the return address, back into its slot
    PopM(At(RSP, 0)),
    PushR(RDI),              // 39
    PushR(RSI),
    PushR(RDX),
    PushR(RCX),
    Lea(RSI, At(RDI, 64)),   // 43: the new set is env's mask
    MovRI(RDI, 2),           // how = SIG_SETMASK
    MovRI(RDX, 0),
    MovRI(RCX, 8),
    Call(0),
    PopR(RCX),               // 48
    PopR(RDX),
    PopR(RSI),
    PopR(RDI),
    MovRR(RAX, RSI),         // 52: val
    Ret
  ]

  const LIB: seq<Instr> := STUB_CODE + SETJMP_CODE + LONGJMP_CODE

  lemma CodeStub()
    ensures |LIB| == 54
    ensures LIB[0] == PushR(R10) && LIB[1] == MovRR(R10, RCX) && LIB[2] == MovRI(RAX, 14)
    ensures LIB[3] == Syscall && LIB[4] == PopR(R10) && LIB[5] == Ret
  {
  }

  lemma CodeSave()
    ensures |LIB| == 54
    ensures LIB[6] == MovMR(At(RDI, 0), RBX) && LIB[7] == MovMR(At(RDI, 8), RSP)
    ensures LIB[8] == MovMR(At(RDI, 16), RBP) && LIB[9] == MovMR(At(RDI, 24), R12)
  {
  }

  lemma CodeSave2()
    ensures |LIB| == 54
    ensures LIB[10] == MovMR(At(RDI, 32), R13) && LIB[11] == MovMR(At(RDI, 40), R14)
    ensures LIB[12] == MovMR(At(RDI, 48), R15)
    ensures LIB[13] == PushM(At(RSP, 0)) && LIB[14] == PopM(At(RDI, 56))
  {
  }

  lemma CodeGetMask()
    ensures |LIB| == 54
    ensures LIB[19] == MovRI(RDI, 0) && LIB[20] == MovRI(RSI, 0) && LIB[21] == Lea(RDX, At(RDI, 64))
    ensures LIB[22] == MovRI(RCX, 8) && LIB[23] == Call(0)
    ensures LIB[28] == MovRI(RAX, 0) && LIB[29] == Ret
  {
  }

  lemma CodeSetMask()
    ensures |LIB| == 54
    ensures LIB[43] == Lea(RSI, At(RDI, 64)) && LIB[44] == MovRI(RDI, 2) && LIB[45] == MovRI(RDX, 0)
    ensures LIB[46] == MovRI(RCX, 8) && LIB[47] == Call(0)
    ensures LIB[52] == MovRR(RAX, RSI) && LIB[53] == Ret
  {
  }

  lemma CodeRestore()
    ensures |LIB| == 54
    ensures LIB[30] == MovRM(RBX, At(RDI, 0)) && LIB[31] == MovRM(RSP, At(RDI, 8))
    ensures LIB[32] == MovRM(RBP, At(RDI, 16)) && LIB[33] == MovRM(R12, At(RDI, 24))
  {
  }

  lemma CodeRestore2()
    ensures |LIB| == 54
    ensures LIB[34] == MovRM(R13, At(RDI, 32)) && LIB[35] == MovRM(R14, At(RDI, 40))
    ensures LIB[36] == MovRM(R15, At(RDI, 48))
    ensures LIB[37] == PushM(At(RDI, 56)) && LIB[38] == PopM(At(RSP, 0))
  {
  }

  predicate ArgPushes(pc: nat) {
    pc + 4 <= |LIB| && LIB[pc] == PushR(RDI) && LIB[pc + 1] == PushR(RSI) && LIB[pc + 2] == PushR(RDX)
    && LIB[pc + 3] == PushR(RCX)
  }

  predicate ArgPops(pc: nat) {
    pc + 4 <= |LIB| && LIB[pc] == PopR(RCX) && LIB[pc + 1] == PopR(RDX) && LIB[pc + 2] == PopR(RSI)
    && LIB[pc + 3] == PopR(RDI)
  }

  lemma CodeArgs()
    ensures ArgPushes(15) && ArgPushes(39) && ArgPops(24) && ArgPops(48)
  {
  }

  // ----- signal masks -----

  lemma KillAndStop(i: nat)
    ensures Bit(0x4_0100, i) <==> i == 8 || i == 18
  {
    assert Pow2(8) == 0x100 && Pow2(18) == 0x4_0000;
    OrDisjoint(1, 0x100, 18);
    SignalSets.BitOr(Pow2(18), Pow2(8), i);
    SignalSets.BitPow2(18, i);
    SignalSets.BitPow2(8, i);
  }

  /** The kernel installs a mask less SIGKILL (9) and SIGSTOP (19), which cannot be blocked. */
  lemma SettableSignals(w: Word)
    ensures SignalSets.Members(Settable(w)) == SignalSets.Members(w) - {9, 19}
  {
    Pow2Of64();
    SignalSets.AndBound(w, BLOCKABLE, 64);
    assert Settable(w) == And(w, BLOCKABLE);
    forall x: SignalSets.Signal
      ensures SignalSets.Has(Settable(w), x) <==> SignalSets.Has(w, x) && x != 9 && x != 19
    {
      SignalSets.BitAnd(w, BLOCKABLE, x - 1);
      SignalSets.BitFlip(0x4_0100, 64, x - 1);
      KillAndStop(x - 1);
    }
  }

  // ----- the stub -----

  /** Registers a system call through the stub leaves alone, the stack pointer apart. */
  predicate SameAcrossCall(a: Regs, b: Regs) {
    && a.rbx == b.rbx && a.rdx == b.rdx && a.rsi == b.rsi && a.rdi == b.rdi && a.rbp == b.rbp
    && a.r8 == b.r8 && a.r9 == b.r9 && a.r10 == b.r10
    && a.r12 == b.r12 && a.r13 == b.r13 && a.r14 == b.r14 && a.r15 == b.r15
  }

  /** The two uses made of the call: no set given, or SIG_SETMASK with a readable set; and no
      writable place given for the old mask. */
  predicate MaskCall(c: Cpu) {
    && (c.regs.rdx == 0 || !MappedAt(c.mem, c.regs.rdx, 8))
    && (c.regs.rsi == 0 || (c.regs.rdi == SIG_SETMASK && MappedAt(c.mem, c.regs.rsi, 8)))
  }

  function NewMask(c: Cpu): Word
    requires MaskCall(c)
  {
    if c.regs.rsi == 0 then c.mask else Settable(Read(c.mem, c.regs.rsi))
  }

  lemma SyscallEffect(c: Cpu)
    requires MaskCall(c)
    ensures SigProcMask(c).Next?
    ensures var r := SigProcMask(c).cpu;
      && r.pc == c.pc + 1 && r.mem == c.mem && r.scratch == c.scratch && r.mask == NewMask(c)
      && SameAcrossCall(c.regs, r.regs) && r.regs.rsp == c.regs.rsp
  {
    hide Load, Read;
  }

  /** sys_rt_sigprocmask up to the system call. */
  lemma StubEnter(p: Point) returns (q: Point)
    requires On(LIB, 0, p) && p.c.pc == STUB && MappedAt(p.c.mem, p.c.regs.rsp - 8, 16) && |p.c.mem| < TWO64
    ensures On(LIB, 0, q) && q.c0 == p.c0 && q.m0 == p.m0 && q.k == p.k + 3 && q.c.pc == 3
    ensures q.c.regs == p.c.regs.(rsp := p.c.regs.rsp - 8, r10 := p.c.regs.rcx, rax := SYS_RT_SIGPROCMASK)
    ensures q.c.mem == Store(p.c.mem, p.c.regs.rsp - 8, 8, p.c.regs.r10)
    ensures q.c.mask == p.c.mask && q.c.scratch == p.c.scratch
  {
    CodeStub();
    hide RunFor, Exec, Load, Read, Store, On, LIB;
    q := DoPushR(LIB, 0, p, R10);
    q := DoMovRR(LIB, 0, q, R10, RCX);
    q := DoMovRI(LIB, 0, q, RAX, 14);
  }

  /** pop r10; ret */
  lemma StubReturn(p: Point) returns (q: Point)
    requires On(LIB, 0, p) && p.c.pc == 4 && MappedAt(p.c.mem, p.c.regs.rsp, 16) && |p.c.mem| < TWO64
    ensures On(LIB, 0, q) && q.c0 == p.c0 && q.m0 == p.m0 && q.k == p.k + 2
    ensures q.c == p.c.(pc := Read(p.c.mem, p.c.regs.rsp + 8),
      regs := p.c.regs.(r10 := Read(p.c.mem, p.c.regs.rsp), rsp := p.c.regs.rsp + 16))
  {
    CodeStub();
    hide RunFor, Exec, Load, Read, Store, On, LIB;
    q := DoPopR(LIB, 0, p, R10);
    q := DoRet(LIB, 0, q);
  }

  /** The rest of the stub. */
  lemma StubLeave(p: Point) returns (q: Point)
    requires On(LIB, 0, p) && p.c.pc == 3 && MaskCall(p.c) && p.c.regs.rax == SYS_RT_SIGPROCMASK
    requires MappedAt(p.c.mem, p.c.regs.rsp, 16) && |p.c.mem| < TWO64
    ensures On(LIB, 0, q) && q.c0 == p.c0 && q.m0 == p.m0 && q.k == p.k + 3
    ensures q.c.pc == Read(p.c.mem, p.c.regs.rsp + 8) && q.c.regs.rsp == p.c.regs.rsp + 16
    ensures SameAcrossCall(p.c.regs.(r10 := Read(p.c.mem, p.c.regs.rsp)), q.c.regs)
    ensures q.c.mem == p.c.mem && q.c.mask == NewMask(p.c) && q.c.scratch == p.c.scratch
  {
    CodeStub();
    SyscallEffect(p.c);
    hide RunFor, Exec, Load, Read, Store, On, LIB, SigProcMask, MaskCall, NewMask;
    q := DoSyscall(LIB, 0, p);
    q := StubReturn(q);
  }

  /** sys_rt_sigprocmask: returns to its caller with the mask changed as asked, one word below
      rsp used, and no register changed but rax, rcx and r11. */
  lemma Stub(p: Point) returns (q: Point)
    requires On(LIB, 0, p) && p.c.pc == STUB && MaskCall(p.c)
    requires MappedAt(p.c.mem, p.c.regs.rsp - 8, 16) && |p.c.mem| < TWO64
    requires p.c.regs.rsi != 0 ==> p.c.regs.rsi + 8 <= p.c.regs.rsp - 8 || p.c.regs.rsp <= p.c.regs.rsi
    ensures On(LIB, 0, q) && q.c0 == p.c0 && q.m0 == p.m0 && q.k == p.k + 6
    ensures q.c.pc == Read(p.c.mem, p.c.regs.rsp) && q.c.regs.rsp == p.c.regs.rsp + 8
    ensures SameAcrossCall(p.c.regs, q.c.regs) && q.c.mask == NewMask(p.c) && q.c.scratch == p.c.scratch
    ensures SameOutside(p.c.mem, q.c.mem, p.c.regs.rsp - 8, p.c.regs.rsp)
  {
    hide On, Load, Read, Store, SameOutside;
    var S, v := p.c.regs.rsp, p.c.regs.r10;
    StoreOutside(p.c.mem, S - 8, 8, v, S - 8, S);
    ReadStored(p.c.mem, S - 8, v);
    ReadElsewhere(p.c.mem, S - 8, v, S);
    if p.c.regs.rsi != 0 {
      ReadElsewhere(p.c.mem, S - 8, v, p.c.regs.rsi);
    }
    q := StubEnter(p);
    q := StubLeave(q);
  }

  // ----- saving the argument registers around the call -----

  /** The four argument registers as pushed from stack pointer S. */
  predicate ArgsAt(m: Mem, S: int, r: Regs) {
    MappedAt(m, S - 32, 32) &&
    Read(m, S - 8) == r.rdi && Read(m, S - 16) == r.rsi && Read(m, S - 24) == r.rdx && Read(m, S - 32) == r.rcx
  }

  lemma PushOne(p: Point, s: Reg, S: int) returns (q: Point)
    requires On(LIB, 0, p) && Fetches(LIB, p, PushR(s)) && MappedAt(p.c.mem, p.c.regs.rsp - 8, 8)
    requires p.c.regs.rsp <= S
    ensures On(LIB, 0, q) && q.c0 == p.c0 && q.m0 == p.m0 && q.k == p.k + 1
    ensures q.c == Pushed(p.c, p.c.regs.Get(s)) && |q.c.mem| == |p.c.mem|
    ensures Read(q.c.mem, p.c.regs.rsp - 8) == p.c.regs.Get(s)
    ensures forall a :: p.c.regs.rsp <= a && a + 8 <= |p.c.mem| ==> Read(q.c.mem, a) == Read(p.c.mem, a)
    ensures SameOutside(p.c.mem, q.c.mem, p.c.regs.rsp - 8, S)
  {
    hide RunFor, Exec, Load, Read, Store, On, LIB;
    var a0, v := p.c.regs.rsp - 8, p.c.regs.Get(s);
    q := DoPushR(LIB, 0, p, s);
    StoreOutside(p.c.mem, a0, 8, v, a0, S);
    ReadStored(p.c.mem, a0, v);
    forall a | p.c.regs.rsp <= a && a + 8 <= |p.c.mem| ensures Read(q.c.mem, a) == Read(p.c.mem, a) {
      ReadElsewhere(p.c.mem, a0, v, a);
    }
  }

  lemma PushArgs(p: Point) returns (q: Point)
    requires On(LIB, 0, p) && ArgPushes(p.c.pc) && MappedAt(p.c.mem, p.c.regs.rsp - 32, 32)
    ensures On(LIB, 0, q) && q.c0 == p.c0 && q.m0 == p.m0 && q.k == p.k + 4 && q.c.pc == p.c.pc + 4
    ensures q.c.regs == p.c.regs.(rsp := p.c.regs.rsp - 32)
    ensures q.c.mask == p.c.mask && q.c.scratch == p.c.scratch
    ensures ArgsAt(q.c.mem, p.c.regs.rsp, p.c.regs)
    ensures SameOutside(p.c.mem, q.c.mem, p.c.regs.rsp - 32, p.c.regs.rsp)
  {
    hide RunFor, Exec, Load, Read, Store, On, LIB, SameOutside;
    var S := p.c.regs.rsp;
    var q1 := PushOne(p, RDI, S);
    var q2 := PushOne(q1, RSI, S);
    var q3 := PushOne(q2, RDX, S);
    q := PushOne(q3, RCX, S);
    OutsideJoin(p.c.mem, q1.c.mem, q2.c.mem, S - 8, S, S - 16, S);
    OutsideJoin(p.c.mem, q2.c.mem, q3.c.mem, S - 16, S, S - 24, S);
    OutsideJoin(p.c.mem, q3.c.mem, q.c.mem, S - 24, S, S - 32, S);
  }

  /** pop rcx; pop rdx */
  lemma PopTwo(p: Point) returns (q: Point)
    requires On(LIB, 0, p) && ArgPops(p.c.pc) && MappedAt(p.c.mem, p.c.regs.rsp, 16) && |p.c.mem| < TWO64
    ensures On(LIB, 0, q) && q.c0 == p.c0 && q.m0 == p.m0 && q.k == p.k + 2
    ensures q.c == p.c.(pc := p.c.pc + 2, regs := p.c.regs.(rsp := p.c.regs.rsp + 16,
      rcx := Read(p.c.mem, p.c.regs.rsp), rdx := Read(p.c.mem, p.c.regs.rsp + 8)))
  {
    hide RunFor, Exec, Load, Read, Store, On, LIB;
    q := DoPopR(LIB, 0, p, RCX);
    q := DoPopR(LIB, 0, q, RDX);
  }

  lemma PopArgs(p: Point, r: Regs) returns (q: Point)
    requires On(LIB, 0, p) && ArgPops(p.c.pc) && ArgsAt(p.c.mem, p.c.regs.rsp + 32, r)
    requires |p.c.mem| < TWO64
    ensures On(LIB, 0, q) && q.c0 == p.c0 && q.m0 == p.m0 && q.k == p.k + 4 && q.c.pc == p.c.pc + 4
    ensures q.c.mem == p.c.mem && q.c.mask == p.c.mask && q.c.scratch == p.c.scratch
    ensures q.c.regs == p.c.regs.(rsp := p.c.regs.rsp + 32, rcx := r.rcx, rdx := r.rdx, rsi := r.rsi, rdi := r.rdi)
  {
    hide RunFor, Exec, Load, Read, Store, On, LIB;
    q := PopTwo(p);
    q := DoPopR(LIB, 0, q, RSI);
    q := DoPopR(LIB, 0, q, RDI);
  }

  /** Both ask for the same change of the mask. */
  predicate SameRequest(a: Cpu, b: Cpu) {
    MaskCall(a) && MaskCall(b) && NewMask(a) == NewMask(b)
  }

  /** The call instruction leaves the request as it was. */
  lemma EnterStub(p: Point) returns (q: Point)
    requires On(LIB, 0, p) && Fetches(LIB, p, Call(STUB)) && MaskCall(p.c)
    requires MappedAt(p.c.mem, p.c.regs.rsp - 16, 16) && |p.c.mem| < TWO64
    requires p.c.regs.rsi != 0 ==> p.c.regs.rsi + 8 <= p.c.regs.rsp - 16 || p.c.regs.rsp <= p.c.regs.rsi
    ensures On(LIB, 0, q) && q.c0 == p.c0 && q.m0 == p.m0 && q.k == p.k + 1 && q.c.pc == STUB
    ensures q.c.regs == p.c.regs.(rsp := p.c.regs.rsp - 8) && q.c.scratch == p.c.scratch
    ensures |q.c.mem| == |p.c.mem| && SameRequest(p.c, q.c)
    ensures Read(q.c.mem, p.c.regs.rsp - 8) == p.c.pc + 1
    ensures SameOutside(p.c.mem, q.c.mem, p.c.regs.rsp - 16, p.c.regs.rsp)
  {
    CodeStub();
    hide RunFor, Exec, Load, Read, Store, On, SameOutside, LIB, Settable;
    var S := p.c.regs.rsp;
    q := DoCall(LIB, 0, p, STUB);
    StoreOutside(p.c.mem, S - 8, 8, p.c.pc + 1, S - 16, S);
    ReadStored(p.c.mem, S - 8, p.c.pc + 1);
    if p.c.regs.rsi != 0 {
      ReadElsewhere(p.c.mem, S - 8, p.c.pc + 1, p.c.regs.rsi);
    }
  }

  /** call sys_rt_sigprocmask */
  lemma CallStub(p: Point) returns (q: Point)
    requires On(LIB, 0, p) && Fetches(LIB, p, Call(STUB)) && MaskCall(p.c)
    requires MappedAt(p.c.mem, p.c.regs.rsp - 16, 16) && |p.c.mem| < TWO64
    requires p.c.regs.rsi != 0 ==> p.c.regs.rsi + 8 <= p.c.regs.rsp - 16 || p.c.regs.rsp <= p.c.regs.rsi
    ensures On(LIB, 0, q) && q.c0 == p.c0 && q.m0 == p.m0 && q.k == p.k + 7 && q.c.pc == p.c.pc + 1
    ensures SameAcrossCall(p.c.regs, q.c.regs) && q.c.regs.rsp == p.c.regs.rsp
    ensures q.c.mask == NewMask(p.c) && q.c.scratch == p.c.scratch
    ensures SameOutside(p.c.mem, q.c.mem, p.c.regs.rsp - 16, p.c.regs.rsp)
  {
    hide RunFor, Exec, Load, Read, Store, On, SameOutside, LIB, MaskCall, NewMask;
    var d := EnterStub(p);
    q := Stub(d);
    var S := p.c.regs.rsp;
    OutsideJoin(p.c.mem, d.c.mem, q.c.mem, S - 16, S, S - 16, S - 8);
  }

  lemma ArgsKept(m: Mem, m': Mem, S: int, r: Regs)
    requires ArgsAt(m, S, r) && SameOutside(m, m', S - 48, S - 32)
    ensures ArgsAt(m', S, r)
  {
    hide Load, Read;
    ReadOutside(m, m', S - 48, S - 32, S - 8);
    ReadOutside(m, m', S - 48, S - 32, S - 16);
    ReadOutside(m, m', S - 48, S - 32, S - 24);
    ReadOutside(m, m', S - 48, S - 32, S - 32);
  }

  /** No register but rax and r11 differs. */
  predicate SameButResult(a: Regs, b: Regs) {
    SameAcrossCall(a, b) && a.rsp == b.rsp && a.rcx == b.rcx
  }

  /** From the saved arguments, through the call, to the restored arguments. */
  lemma CallAndRestore(p: Point, r: Regs, S: int) returns (q: Point)
    requires On(LIB, 0, p) && Fetches(LIB, p, Call(STUB)) && MaskCall(p.c) && ArgPops(p.c.pc + 1)
    requires p.c.regs.rsp == S - 32 && MappedAt(p.c.mem, S - 48, 48) && |p.c.mem| < TWO64
    requires ArgsAt(p.c.mem, S, r)
    requires p.c.regs.rsi != 0 ==> p.c.regs.rsi + 8 <= S - 48 || S <= p.c.regs.rsi
    requires p.c.regs == r.(rsp := S - 32, rax := p.c.regs.rax,
                            rdi := p.c.regs.rdi, rsi := p.c.regs.rsi, rdx := p.c.regs.rdx, rcx := p.c.regs.rcx)
    requires r.rsp == S
    ensures On(LIB, 0, q) && q.c0 == p.c0 && q.m0 == p.m0 && q.k == p.k + 11 && q.c.pc == p.c.pc + 5
    ensures SameButResult(r, q.c.regs) && q.c.mask == NewMask(p.c) && q.c.scratch == p.c.scratch
    ensures SameOutside(p.c.mem, q.c.mem, S - 48, S - 32)
  {
    hide RunFor, Exec, Load, Read, Store, On, LIB, ArgsAt, NewMask, MaskCall;
    q := CallStub(p);
    ArgsKept(p.c.mem, q.c.mem, S, r);
    assert |q.c.mem| == |p.c.mem|;
    q := PopArgs(q, r);
  }

  /** setjmp's use of the call: the old mask would go to address 64, which is in page zero, so
      nothing is read or written and the mask stays as it is. */
  lemma AskOldMask(p: Point) returns (q: Point)
    requires On(LIB, 0, p) && p.c.pc == 15 && MappedAt(p.c.mem, p.c.regs.rsp - 48, 48) && |p.c.mem| < TWO64
    ensures On(LIB, 0, q) && q.c0 == p.c0 && q.m0 == p.m0 && q.k == p.k + 19 && q.c.pc == 28
    ensures SameButResult(p.c.regs, q.c.regs) && q.c.mask == p.c.mask && q.c.scratch == p.c.scratch
    ensures SameOutside(p.c.mem, q.c.mem, p.c.regs.rsp - 48, p.c.regs.rsp)
  {
    CodeGetMask();
    CodeArgs();
    hide RunFor, Exec, Load, Read, Store, On, LIB, ArgsAt, SameOutside, ArgPushes, ArgPops;
    var S := p.c.regs.rsp;
    q := PushArgs(p);
    var pushed := q.c;
    assert |pushed.mem| == |p.c.mem| by { OutsideLength(p.c.mem, pushed.mem, S - 32, S); }
    q := DoMovRI(LIB, 0, q, RDI, 0);
    q := DoMovRI(LIB, 0, q, RSI, 0);
    q := DoLea(LIB, 0, q, RDX, RDI, 64, 64);
    q := DoMovRI(LIB, 0, q, RCX, 8);
    q := CallAndRestore(q, p.c.regs, S);
    OutsideJoin(p.c.mem, pushed.mem, q.c.mem, S - 32, S, S - 48, S - 32);
  }

  lemma OutsideLength(a: Mem, b: Mem, lo: int, hi: int)
    requires SameOutside(a, b, lo, hi)
    ensures |a| == |b|
  {
  }

  /** longjmp's use of the call: the mask becomes what env's mask slot holds, less the two
      signals that cannot be blocked. */
  lemma InstallMask(p: Point, env: int) returns (q: Point)
    requires On(LIB, 0, p) && p.c.pc == 39 && MappedAt(p.c.mem, p.c.regs.rsp - 48, 48) && |p.c.mem| < TWO64
    requires p.c.regs.rdi == env && MappedAt(p.c.mem, env, 72)
    requires env + 72 <= p.c.regs.rsp - 48 || p.c.regs.rsp <= env
    ensures On(LIB, 0, q) && q.c0 == p.c0 && q.m0 == p.m0 && q.k == p.k + 19 && q.c.pc == 52
    ensures SameButResult(p.c.regs, q.c.regs) && q.c.scratch == p.c.scratch
    ensures q.c.mask == Settable(Read(p.c.mem, env + 64))
    ensures SignalSets.Members(q.c.mask) == SignalSets.Members(Read(p.c.mem, env + 64)) - {9, 19}
    ensures SameOutside(p.c.mem, q.c.mem, p.c.regs.rsp - 48, p.c.regs.rsp)
  {
    CodeSetMask();
    CodeArgs();
    hide RunFor, Exec, Load, Read, Store, On, LIB, ArgsAt, SameOutside, ArgPushes, ArgPops, Settable;
    var S := p.c.regs.rsp;
    q := PushArgs(p);
    var pushed := q.c;
    OutsideLength(p.c.mem, pushed.mem, S - 32, S);
    ReadOutside(p.c.mem, pushed.mem, S - 32, S, env + 64);
    q := SetArgs(q, env);
    q := CallAndRestore(q, p.c.regs, S);
    OutsideJoin(p.c.mem, pushed.mem, q.c.mem, S - 32, S, S - 48, S - 32);
    SettableSignals(Read(p.c.mem, env + 64));
  }

  /** lea rsi, [rdi+64]; mov rdi, 2; mov rdx, 0; mov rcx, 8 */
  lemma SetArgs(p: Point, env: int) returns (q: Point)
    requires On(LIB, 0, p) && p.c.pc == 43 && p.c.regs.rdi == env && env + 64 < TWO64
    ensures On(LIB, 0, q) && q.c0 == p.c0 && q.m0 == p.m0 && q.k == p.k + 4 && q.m == p.m
    ensures q.c == p.c.(pc := 47,
                        regs := p.c.regs.(rsi := env + 64, rdi := SIG_SETMASK, rdx := 0, rcx := 8))
  {
    CodeSetMask();
    hide RunFor, Exec, Load, Read, Store, On, LIB;
    q := DoLea(LIB, 0, p, RSI, RDI, 64, env + 64);
    q := DoMovRI(LIB, 0, q, RDI, 2);
    q := DoMovRI(LIB, 0, q, RDX, 0);
    q := DoMovRI(LIB, 0, q, RCX, 8);
  }

  // ----- setjmp -----

  /** What setjmp called with these registers and this return address saves, slot by slot. */
  function Context(r: Regs, ra: Word): (v: seq<Word>)
    ensures |v| == 8
  {
    [r.rbx, r.rsp, r.rbp, r.r12, r.r13, r.r14, r.r15, ra]
  }

  /** The first n slots of env hold v. */
  ghost predicate Slots(m: Mem, env: int, n: nat, v: seq<Word>)
    requires n <= |v| == 8
  {
    MappedAt(m, env, 64) && forall k :: 0 <= k < n ==> Read(m, env + 8 * k) == v[k]
  }

  /** Every byte is the same in both but those of env's slots and of the scratch stack. */
  ghost predicate SameBut(a: Mem, b: Mem, env: int, S: int) {
    |a| == |b| && forall k {:trigger b[k]} ::
      0 <= k < |a| && !(env <= k < env + 64) && !(S - 48 <= k < S) ==> a[k] == b[k]
  }

  lemma SameButJoin(a: Mem, b: Mem, c: Mem, env: int, S: int, lo: int, hi: int)
    requires SameBut(a, b, env, S) && SameOutside(b, c, lo, hi)
    requires (env <= lo && hi <= env + 64) || (S - 48 <= lo && hi <= S)
    ensures SameBut(a, c, env, S)
  {
  }

  lemma SlotsKept(m: Mem, m': Mem, env: int, n: nat, v: seq<Word>, lo: int, hi: int)
    requires n <= |v| == 8 && Slots(m, env, n, v) && SameOutside(m, m', lo, hi)
    requires env + 64 <= lo || hi <= env
    ensures Slots(m', env, n, v)
  {
    hide Load, Read;
    forall k | 0 <= k < n ensures Read(m', env + 8 * k) == v[k] {
      ReadOutside(m, m', lo, hi, env + 8 * k);
    }
  }

  /** Storing slot n. */
  lemma SlotStored(m: Mem, env: int, n: nat, v: seq<Word>)
    requires n < |v| == 8 && Slots(m, env, n, v)
    ensures Slots(Store(m, env + 8 * n, 8, v[n]), env, n + 1, v)
    ensures SameOutside(m, Store(m, env + 8 * n, 8, v[n]), env, env + 64)
  {
    hide Load, Read, Store;
    var a := env + 8 * n;
    StoreOutside(m, a, 8, v[n], env, env + 64);
    ReadStored(m, a, v[n]);
    forall k | 0 <= k < n ensures Read(Store(m, a, 8, v[n]), env + 8 * k) == v[k] {
      ReadElsewhere(m, a, v[n], env + 8 * k);
    }
  }

  /** setjmp has saved n slots and changed nothing else it should not. */
  ghost predicate Saving(c: Cpu, d: Cpu, n: nat, v: seq<Word>) {
    && n <= |v| == 8
    && d.regs == c.regs && d.mask == c.mask && d.scratch == c.scratch
    && Slots(d.mem, c.regs.rdi, n, v) && |d.mem| < TWO64
    && SameBut(c.mem, d.mem, c.regs.rdi, c.regs.rsp)
  }

  lemma SaveSlot(c: Cpu, p: Point, n: nat, v: seq<Word>, s: Reg) returns (q: Point)
    requires On(LIB, 0, p) && Fetches(LIB, p, MovMR(At(RDI, 8 * n), s))
    requires Saving(c, p.c, n, v) && n < 8 && c.regs.Get(s) == v[n]
    ensures On(LIB, 0, q) && q.c0 == p.c0 && q.m0 == p.m0 && q.k == p.k + 1 && q.c.pc == p.c.pc + 1
    ensures Saving(c, q.c, n + 1, v)
  {
    hide RunFor, Exec, Load, Read, Store, On, LIB, SameOutside, Slots, SameBut;
    assert MappedAt(p.c.mem, c.regs.rdi, 64) by { SlotsMapped(p.c.mem, c.regs.rdi, n, v); }
    SlotStored(p.c.mem, c.regs.rdi, n, v);
    q := DoMovMR(LIB, 0, p, RDI, 8 * n, s, c.regs.rdi + 8 * n);
    SameButJoin(c.mem, p.c.mem, q.c.mem, c.regs.rdi, c.regs.rsp, c.regs.rdi, c.regs.rdi + 64);
  }

  lemma SlotsMapped(m: Mem, env: int, n: nat, v: seq<Word>)
    requires n <= |v| == 8 && Slots(m, env, n, v)
    ensures MappedAt(m, env, 64)
  {
  }

  /** The stack that setjmp and longjmp use, with rsp at S, lies apart from env. */
  predicate Apart(m: Mem, env: int, S: int) {
    && MappedAt(m, env, 72) && MappedAt(m, S - 48, 56) && |m| < TWO64
    && (env + 72 <= S - 48 || S + 8 <= env)
  }

  lemma SaveRegisters(c: Cpu, m: Meter, v: seq<Word>) returns (q: Point)
    requires c.pc == SETJMP && Apart(c.mem, c.regs.rdi, c.regs.rsp)
    requires v == Context(c.regs, Read(c.mem, c.regs.rsp))
    ensures On(LIB, 0, q) && q.c0 == c && q.m0 == m && q.k == 7 && q.c.pc == 13
    ensures Saving(c, q.c, 7, v)
  {
    CodeSave();
    CodeSave2();
    hide RunFor, Exec, Load, Read, Store, On, LIB;
    q := Start(LIB, 0, c, m);
    assert Saving(c, q.c, 0, v);
    hide Saving;
    q := SaveSlot(c, q, 0, v, RBX);
    q := SaveSlot(c, q, 1, v, RSP);
    q := SaveSlot(c, q, 2, v, RBP);
    q := SaveSlot(c, q, 3, v, R12);
    q := SaveSlot(c, q, 4, v, R13);
    q := SaveSlot(c, q, 5, v, R14);
    q := SaveSlot(c, q, 6, v, R15);
  }

  /** push qword [rsp]; pop qword [rdi + 56] */
  lemma SaveReturnAddress(c: Cpu, p: Point, v: seq<Word>) returns (q: Point)
    requires On(LIB, 0, p) && p.c.pc == 13 && Saving(c, p.c, 7, v)
    requires Apart(c.mem, c.regs.rdi, c.regs.rsp) && v == Context(c.regs, Read(c.mem, c.regs.rsp))
    ensures On(LIB, 0, q) && q.c0 == p.c0 && q.m0 == p.m0 && q.k == p.k + 2 && q.c.pc == 15
    ensures Saving(c, q.c, 8, v)
  {
    CodeSave2();
    hide RunFor, Exec, Load, Read, Store, On, LIB, SameOutside, Slots;
    var env, S := c.regs.rdi, c.regs.rsp;
    assert Read(p.c.mem, S) == v[7] by { ReadSame(c.mem, p.c.mem, S); }
    hide SameBut;
    q := DoPushM(LIB, 0, p, RSP, 0, S);
    var d := q.c;
    StoreOutside(p.c.mem, S - 8, 8, v[7], S - 8, S);
    ReadStored(p.c.mem, S - 8, v[7]);
    SlotsKept(p.c.mem, d.mem, env, 7, v, S - 8, S);
    SameButJoin(c.mem, p.c.mem, d.mem, env, S, S - 8, S);
    SlotStored(d.mem, env, 7, v);
    q := DoPopM(LIB, 0, q, RDI, 56, env + 56);
    SameButJoin(c.mem, d.mem, q.c.mem, env, S, env, env + 64);
  }

  /** setjmp up to its last two instructions. */
  lemma SaveContext(c: Cpu, m: Meter, v: seq<Word>) returns (q: Point)
    requires c.pc == SETJMP && Apart(c.mem, c.regs.rdi, c.regs.rsp)
    requires v == Context(c.regs, Read(c.mem, c.regs.rsp))
    ensures On(LIB, 0, q) && q.c0 == c && q.m0 == m && q.k == 28 && q.c.pc == 28
    ensures SameButResult(c.regs, q.c.regs) && q.c.mask == c.mask
    ensures Slots(q.c.mem, c.regs.rdi, 8, v) && SameBut(c.mem, q.c.mem, c.regs.rdi, c.regs.rsp)
  {
    hide RunFor, Exec, Load, Read, Store, On, LIB, SameOutside, Slots, SameBut;
    var env, S := c.regs.rdi, c.regs.rsp;
    q := SaveRegisters(c, m, v);
    q := SaveReturnAddress(c, q, v);
    var d := q.c;
    assert |d.mem| == |c.mem| by { SameButLength(c.mem, d.mem, env, S); }
    q := AskOldMask(q);
    SlotsKept(d.mem, q.c.mem, env, 8, v, S - 48, S);
    SameButJoin(c.mem, d.mem, q.c.mem, env, S, S - 48, S);
  }

  lemma SameButLength(a: Mem, b: Mem, env: int, S: int)
    requires SameBut(a, b, env, S)
    ensures |a| == |b|
  {
  }

  /** The return-address slot is among the bytes setjmp leaves alone. */
  lemma ReturnSlotKept(a: Mem, b: Mem, env: int, S: int)
    requires SameBut(a, b, env, S) && Apart(a, env, S)
    ensures |a| == |b| && Read(b, S) == Read(a, S)
  {
    ReadSame(a, b, S);
  }

  /** setjmp returns 0 to its caller; env's eight register slots hold the caller's context; no
      register but rax, rsp and r11 has changed, nor the signal mask, nor any byte outside the
      slots and the 48 bytes below rsp - in particular not env's mask slot. */
  lemma Setjmp(c: Cpu, m: Meter) returns (q: Point)
    requires c.pc == SETJMP && Apart(c.mem, c.regs.rdi, c.regs.rsp)
    ensures On(LIB, 0, q) && q.c0 == c && q.m0 == m && q.k == 30
    ensures q.c.pc == Read(c.mem, c.regs.rsp) && q.c.regs.rax == 0 && q.c.regs.rsp == c.regs.rsp + 8
    ensures SameAcrossCall(c.regs, q.c.regs) && q.c.regs.rcx == c.regs.rcx && q.c.mask == c.mask
    ensures Slots(q.c.mem, c.regs.rdi, 8, Context(c.regs, Read(c.mem, c.regs.rsp)))
    ensures SameBut(c.mem, q.c.mem, c.regs.rdi, c.regs.rsp)
  {
    hide On, Load, Read, Slots, SameBut;
    q := SaveContext(c, m, Context(c.regs, Read(c.mem, c.regs.rsp)));
    ReturnSlotKept(c.mem, q.c.mem, c.regs.rdi, c.regs.rsp);
    q := ReturnZero(q);
  }

  /** mov rax, 0; ret */
  lemma ReturnZero(p: Point) returns (q: Point)
    requires On(LIB, 0, p) && p.c.pc == 28 && MappedAt(p.c.mem, p.c.regs.rsp, 8) && |p.c.mem| < TWO64
    ensures On(LIB, 0, q) && q.c0 == p.c0 && q.m0 == p.m0 && q.k == p.k + 2
    ensures q.c.pc == Read(p.c.mem, p.c.regs.rsp)
    ensures q.c.regs == p.c.regs.(rax := 0, rsp := p.c.regs.rsp + 8)
    ensures q.c.mem == p.c.mem && q.c.mask == p.c.mask
  {
    CodeGetMask();
    hide RunFor, Exec, Load, Read, Store, On, LIB;
    q := DoMovRI(LIB, 0, p, RAX, 0);
    q := DoRet(LIB, 0, q);
  }

  // ----- longjmp -----

  /** longjmp, seven loads: the registers come from env's slots. */
  lemma LoadRegisters(c: Cpu, m: Meter, v: seq<Word>) returns (q: Point)
    requires c.pc == LONGJMP && |v| == 8 && Slots(c.mem, c.regs.rdi, 8, v) && |c.mem| < TWO64
    ensures On(LIB, 0, q) && q.c0 == c && q.m0 == m && q.k == 7 && q.c.pc == 37
    ensures q.c.regs == c.regs.(rbx := v[0], rsp := v[1], rbp := v[2], r12 := v[3], r13 := v[4],
                                r14 := v[5], r15 := v[6])
    ensures q.c.mem == c.mem && q.c.mask == c.mask && q.c.scratch == c.scratch
  {
    hide RunFor, Exec, Load, Read, Store, On;
    var env := c.regs.rdi;
    assert Read(c.mem, env + 8 * 0) == v[0] && Read(c.mem, env + 8 * 1) == v[1];
    assert Read(c.mem, env + 8 * 2) == v[2] && Read(c.mem, env + 8 * 3) == v[3];
    assert Read(c.mem, env + 8 * 4) == v[4] && Read(c.mem, env + 8 * 5) == v[5];
    assert Read(c.mem, env + 8 * 6) == v[6];
    q := LoadFour(c, m, env);
    q := LoadThree(q, env);
  }

  lemma LoadFour(c: Cpu, m: Meter, env: int) returns (q: Point)
    requires c.pc == LONGJMP && c.regs.rdi == env && MappedAt(c.mem, env, 64) && |c.mem| < TWO64
    ensures On(LIB, 0, q) && q.c0 == c && q.m0 == m && q.k == 4 && q.c.pc == 34
    ensures q.c.regs == c.regs.(rbx := Read(c.mem, env), rsp := Read(c.mem, env + 8),
                                rbp := Read(c.mem, env + 16), r12 := Read(c.mem, env + 24))
    ensures q.c.mem == c.mem && q.c.mask == c.mask && q.c.scratch == c.scratch
  {
    CodeRestore();
    hide RunFor, Exec, Load, Read, Store, On, LIB;
    q := Start(LIB, 0, c, m);
    q := DoMovRM(LIB, 0, q, RBX, RDI, 0, env);
    q := DoMovRM(LIB, 0, q, RSP, RDI, 8, env + 8);
    q := DoMovRM(LIB, 0, q, RBP, RDI, 16, env + 16);
    q := DoMovRM(LIB, 0, q, R12, RDI, 24, env + 24);
  }

  lemma LoadThree(p: Point, env: int) returns (q: Point)
    requires On(LIB, 0, p) && p.c.pc == 34
    requires p.c.regs.rdi == env && MappedAt(p.c.mem, env, 64) && |p.c.mem| < TWO64
    ensures On(LIB, 0, q) && q.c0 == p.c0 && q.m0 == p.m0 && q.k == p.k + 3 && q.c.pc == 37
    ensures q.c.regs == p.c.regs.(r13 := Read(p.c.mem, env + 32), r14 := Read(p.c.mem, env + 40),
                                  r15 := Read(p.c.mem, env + 48))
    ensures q.c.mem == p.c.mem && q.c.mask == p.c.mask && q.c.scratch == p.c.scratch
  {
    CodeRestore2();
    hide RunFor, Exec, Load, Read, Store, On, LIB;
    q := DoMovRM(LIB, 0, p, R13, RDI, 32, env + 32);
    q := DoMovRM(LIB, 0, q, R14, RDI, 40, env + 40);
    q := DoMovRM(LIB, 0, q, R15, RDI, 48, env + 48);
  }

  /** push qword [rdi + 56]: the saved return address, one word below rsp. */
  lemma FetchReturnAddress(p: Point, env: int) returns (q: Point)
    requires On(LIB, 0, p) && p.c.pc == 37 && p.c.regs.rdi == env && Apart(p.c.mem, env, p.c.regs.rsp)
    ensures On(LIB, 0, q) && q.c0 == p.c0 && q.m0 == p.m0 && q.k == p.k + 1 && q.c.pc == 38
    ensures q.c.regs == p.c.regs.(rsp := p.c.regs.rsp - 8) && q.c.mask == p.c.mask && q.c.scratch == p.c.scratch
    ensures |q.c.mem| == |p.c.mem| && Read(q.c.mem, p.c.regs.rsp - 8) == Read(p.c.mem, env + 56)
    ensures SameOutside(p.c.mem, q.c.mem, p.c.regs.rsp - 8, p.c.regs.rsp + 8)
  {
    CodeRestore2();
    hide RunFor, Exec, Load, Read, Store, On, LIB, SameOutside;
    var S, ra := p.c.regs.rsp, Read(p.c.mem, env + 56);
    q := DoPushM(LIB, 0, p, RDI, 56, env + 56);
    StoreOutside(p.c.mem, S - 8, 8, ra, S - 8, S + 8);
    ReadStored(p.c.mem, S - 8, ra);
  }

  /** pop qword [rsp]: into the slot that is then at rsp. */
  lemma DropIntoSlot(p: Point) returns (q: Point)
    requires On(LIB, 0, p) && p.c.pc == 38 && MappedAt(p.c.mem, p.c.regs.rsp, 16) && |p.c.mem| < TWO64
    ensures On(LIB, 0, q) && q.c0 == p.c0 && q.m0 == p.m0 && q.k == p.k + 1 && q.c.pc == 39
    ensures q.c.regs == p.c.regs.(rsp := p.c.regs.rsp + 8) && q.c.mask == p.c.mask && q.c.scratch == p.c.scratch
    ensures |q.c.mem| == |p.c.mem| && Read(q.c.mem, p.c.regs.rsp + 8) == Read(p.c.mem, p.c.regs.rsp)
    ensures SameOutside(p.c.mem, q.c.mem, p.c.regs.rsp, p.c.regs.rsp + 16)
  {
    CodeRestore2();
    hide RunFor, Exec, Load, Read, Store, On, LIB, SameOutside;
    var S, ra := p.c.regs.rsp + 8, Read(p.c.mem, p.c.regs.rsp);
    q := DoPopM(LIB, 0, p, RSP, 0, S);
    StoreOutside(p.c.mem, S, 8, ra, S - 8, S + 8);
    ReadStored(p.c.mem, S, ra);
  }

  /** push qword [rdi + 56]; pop qword [rsp] */
  lemma PlantReturnAddress(p: Point, env: int) returns (q: Point)
    requires On(LIB, 0, p) && p.c.pc == 37 && p.c.regs.rdi == env && Apart(p.c.mem, env, p.c.regs.rsp)
    ensures On(LIB, 0, q) && q.c0 == p.c0 && q.m0 == p.m0 && q.k == p.k + 2 && q.c.pc == 39
    ensures q.c.regs == p.c.regs && q.c.mask == p.c.mask && q.c.scratch == p.c.scratch
    ensures |q.c.mem| == |p.c.mem| && Read(q.c.mem, p.c.regs.rsp) == Read(p.c.mem, env + 56)
    ensures SameOutside(p.c.mem, q.c.mem, p.c.regs.rsp - 8, p.c.regs.rsp + 8)
  {
    hide RunFor, Exec, Load, Read, Store, On, LIB, SameOutside;
    var S := p.c.regs.rsp;
    var d := FetchReturnAddress(p, env);
    q := DropIntoSlot(d);
    OutsideJoin(p.c.mem, d.c.mem, q.c.mem, S - 8, S + 8, S - 8, S + 8);
  }

  /** longjmp, given any eight values in env's slots: it goes to the saved return address with
      the saved registers, rsp just above the saved rsp, val in rax and the argument registers
      as passed; the mask becomes the signals of env's mask slot less SIGKILL and SIGSTOP; and no byte above the
      return-address slot or more than 48 bytes below it changes. */
  lemma Longjmp(c: Cpu, m: Meter, v: seq<Word>) returns (q: Point)
    requires c.pc == LONGJMP && |v| == 8 && Slots(c.mem, c.regs.rdi, 8, v)
    requires Apart(c.mem, c.regs.rdi, v[1])
    ensures On(LIB, 0, q) && q.c0 == c && q.m0 == m && q.k == 30
    ensures q.c.pc == v[7] && q.c.regs.rax == c.regs.rsi && q.c.regs.rsp == v[1] + 8
    ensures var r := q.c.regs;
      && r.rbx == v[0] && r.rbp == v[2] && r.r12 == v[3] && r.r13 == v[4] && r.r14 == v[5] && r.r15 == v[6]
      && r.rdi == c.regs.rdi && r.rsi == c.regs.rsi && r.rdx == c.regs.rdx && r.rcx == c.regs.rcx
    ensures q.c.mask == Settable(Read(c.mem, c.regs.rdi + 64))
    ensures SignalSets.Members(q.c.mask) == SignalSets.Members(Read(c.mem, c.regs.rdi + 64)) - {9, 19}
    ensures SameOutside(c.mem, q.c.mem, v[1] - 48, v[1] + 8) && Read(q.c.mem, v[1]) == v[7]
  {
    CodeSetMask();
    hide RunFor, Exec, Load, Read, Store, On, LIB, SameOutside, Settable;
    var env, S := c.regs.rdi, v[1];
    assert Read(c.mem, env + 8 * 7) == v[7];
    hide Slots;
    q := LoadRegisters(c, m, v);
    q := PlantReturnAddress(q, env);
    var d := q.c;
    ReadOutside(c.mem, d.mem, S - 8, S + 8, env + 64);
    q := InstallMask(q, env);
    OutsideLength(d.mem, q.c.mem, S - 48, S);
    ReadOutside(d.mem, q.c.mem, S - 48, S, S);
    OutsideJoin(c.mem, d.mem, q.c.mem, S - 8, S + 8, S - 48, S);
    q := DoMovRR(LIB, 0, q, RAX, RSI);
    q := DoRet(LIB, 0, q);
  }

  // ----- the round trip -----

  /** The callee-saved registers of the System V AMD64 ABI, section 3.2.1. */
  predicate SameCalleeSaved(a: Regs, b: Regs) {
    a.rbx == b.rbx && a.rsp == b.rsp && a.rbp == b.rbp && a.r12 == b.r12 && a.r13 == b.r13 && a.r14 == b.r14
    && a.r15 == b.r15
  }

  /** The computation between leaves env's first n bytes as setjmp left them, and ends in a call
      of longjmp on the same env. */
  ghost predicate CallsBack(c: Cpu, first: Cpu, later: Cpu, n: nat) {
    && later.pc == LONGJMP && later.regs.rdi == c.regs.rdi && |later.mem| == |c.mem| == |first.mem|
    && forall k {:trigger later.mem[k]} ::
         c.regs.rdi <= k < c.regs.rdi + n && 0 <= k < |later.mem| ==> later.mem[k] == first.mem[k]
  }

  /** setjmp, then any computation that leaves env's 64 bytes of slots as setjmp left them, then
      longjmp on the same env: execution is back where setjmp returned, with the callee-saved
      registers as they were there, val in rax, what env's mask slot holds by then as the signal
      mask, and nothing above setjmp's return-address slot changed by longjmp. */
  lemma RoundTrip(c: Cpu, m: Meter, first: Point, later: Cpu) returns (second: Point)
    requires c.pc == SETJMP && Apart(c.mem, c.regs.rdi, c.regs.rsp)
    requires On(LIB, 0, first) && first.c0 == c && first.m0 == m && first.k == 30
    requires CallsBack(c, first.c, later, 64)
    ensures first.c.pc == Read(c.mem, c.regs.rsp) && first.c.regs.rax == 0 && first.c.mask == c.mask
    ensures On(LIB, 0, second) && second.c0 == later && second.m0 == m && second.k == 30
    ensures second.c.pc == first.c.pc && SameCalleeSaved(second.c.regs, first.c.regs)
    ensures second.c.regs.rax == later.regs.rsi
    ensures second.c.mask == Settable(Read(later.mem, c.regs.rdi + 64))
    ensures SignalSets.Members(second.c.mask) == SignalSets.Members(Read(later.mem, c.regs.rdi + 64)) - {9, 19}
    ensures SameOutside(later.mem, second.c.mem, c.regs.rsp - 48, c.regs.rsp + 8)
  {
    hide RunFor, Exec, Load, Read, Store, LIB, SameOutside, SameBut, Settable;
    var env := c.regs.rdi;
    var v := Context(c.regs, Read(c.mem, c.regs.rsp));
    var q := Setjmp(c, m);
    assert q == first;
    forall k | 0 <= k < 8 ensures Read(later.mem, env + 8 * k) == v[k] {
      ReadSame(first.c.mem, later.mem, env + 8 * k);
    }
    second := Longjmp(later, m, v);
  }

  /** If nobody writes env's mask slot either, longjmp brings back the signal mask that setjmp was
      called under exactly when the slot held that mask before setjmp was called: setjmp does
      not put it there. */
  lemma MaskExact(c: Cpu, m: Meter, first: Point, later: Cpu) returns (second: Point)
    requires c.pc == SETJMP && Apart(c.mem, c.regs.rdi, c.regs.rsp)
    requires On(LIB, 0, first) && first.c0 == c && first.m0 == m && first.k == 30
    requires CallsBack(c, first.c, later, 72)
    ensures On(LIB, 0, second) && second.c0 == later && second.m0 == m && second.k == 30
    ensures second.c.mask == c.mask <==> Settable(Read(c.mem, c.regs.rdi + 64)) == c.mask
  {
    hide RunFor, Exec, Load, Read, Store, LIB, SameOutside, Settable, Slots, SameCalleeSaved;
    second := RoundTrip(c, m, first, later);
    var q := Setjmp(c, m);
    assert q == first;
    assert Read(later.mem, c.regs.rdi + 64) == Read(c.mem, c.regs.rdi + 64) by {
      ReadSame(c.mem, later.mem, c.regs.rdi + 64);
    }
  }

  // ----- a mask that is lost -----

  lemma {:induction false} ZeroWord(bs: Mem)
    requires forall k :: 0 <= k < |bs| ==> bs[k] == 0
    ensures FromLE(bs) == 0
  {
    if bs != [] {
      ZeroWord(bs[1..]);
    }
  }

  /** Memory that is all zero, a jmp_buf in it, and SIGUSR1 (10) blocked. */
  function Blocking(): Cpu {
    var r := Regs(0, 0, 0, 0, 0, 4096, 0, 8192, 0, 0, 0, 0, 0, 0, 0, 0);
    Cpu(SETJMP, r, seq(12288, _ => 0), Unknown, 512, 0)
  }

  /** setjmp called there, and longjmp at once from where it returns: nothing is blocked any
      more. */
  lemma MaskLost(m: Meter) returns (first: Point, later: Cpu, second: Point)
    ensures var c := Blocking();
      && On(LIB, 0, first) && first.c0 == c && first.k == 30 && first.c.mask == 512
      && later == first.c.(pc := LONGJMP, regs := first.c.regs.(rsi := 1))
    ensures On(LIB, 0, second) && second.c0 == later && second.k == 30 && second.c.pc == first.c.pc
    ensures second.c.mask == 0
  {
    hide RunFor, Exec, Store, LIB, SameOutside, Slots, SameBut, SameCalleeSaved;
    var c := Blocking();
    first := Setjmp(c, m);
    later := first.c.(pc := LONGJMP, regs := first.c.regs.(rsi := 1));
    assert |first.c.mem| == |c.mem| by { SameButLength(c.mem, first.c.mem, 4096, 8192); }
    second := RoundTrip(c, m, first, later);
    SlotUntouched(c, first.c.mem);
    assert And(0, BLOCKABLE) == 0;
  }

  lemma SlotUntouched(c: Cpu, mem: Mem)
    requires c == Blocking() && SameBut(c.mem, mem, 4096, 8192)
    ensures MappedAt(mem, 4160, 8) && Read(mem, 4160) == 0
  {
    assert mem[4160..4168] == c.mem[4160..4168];
    ZeroWord(mem[4160..4168]);
  }

  /** An int in a register: its low half. The calling convention leaves the upper half open. */
  function AsInt(w: Word): int {
    Signed32(Wrap32(w))
  }

  lemma AsIntExact(w: Word)
    ensures -0x8000_0000 <= AsInt(w) < 0x8000_0000 && (w - AsInt(w)) % TWO32 == 0
  {
  }

  /** Section 7.13.2.1 of C11: after longjmp(env, val), setjmp returns val, or 1 if val is 0. */
  function C11Value(val: int): int {
    if val == 0 then 1 else val
  }

  /** This longjmp delivers the int that C11 asks for exactly when the int val is not 0. */
  lemma ValueExact(c: Cpu, m: Meter, v: seq<Word>) returns (q: Point)
    requires c.pc == LONGJMP && |v| == 8 && Slots(c.mem, c.regs.rdi, 8, v)
    requires Apart(c.mem, c.regs.rdi, v[1])
    ensures On(LIB, 0, q) && q.c0 == c && q.m0 == m && q.k == 30
    ensures AsInt(q.c.regs.rax) == C11Value(AsInt(c.regs.rsi)) <==> AsInt(c.regs.rsi) != 0
  {
    hide RunFor, Slots, Apart, AsInt;
    q := Longjmp(c, m, v);
  }
}
