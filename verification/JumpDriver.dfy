/** jmp1.c: a table of functions driven by longjmp back into one setjmp. */
module JumpDriver {
  import opened Words
  import opened Machine
  import opened Stepping
  import opened SetJmp

  /** main's frame: the stack pointer S that its call of setjmp pushes the return address at, the
      jmp_buf, and the int i, which lies above that call's stack and apart from the jmp_buf. */
  datatype Frame = Frame(S: int, env: int, ip: int, ra: Word)

  ghost predicate Sound(f: Frame, m: Mem) {
    && Apart(m, f.env, f.S)
    && f.S + 8 <= f.ip && MappedAt(m, f.ip, 4)
    && (f.ip + 4 <= f.env || f.env + 72 <= f.ip)
  }

  function I(f: Frame, m: Mem): nat
    requires MappedAt(m, f.ip, 4)
  {
    Load(m, f.ip, 4)
  }

  /** Compiled code this model does not see: what entry k does between main's call and its own
      call longjmp(jb, k + 1). It must leave main's frame and the jmp_buf alone. */
  type Body = (nat, Cpu) -> Cpu

  ghost predicate KeepsFrame(f: Frame, body: Body, n: nat) {
    forall k: nat, d: Cpu :: k < n && d.regs.rsp == f.S + 8 && Sound(f, d.mem) ==>
      JumpsBack(f, k, d, body(k, d))
  }

  ghost predicate JumpsBack(f: Frame, k: nat, d: Cpu, e: Cpu) {
    && e.pc == LONGJMP && e.regs.rdi == f.env && AsInt(e.regs.rsi) == k + 1
    && |e.mem| == |d.mem|
    && (forall a {:trigger e.mem[a]} :: 0 <= a < |d.mem| && (f.S + 8 <= a || f.env <= a < f.env + 72) ==>
         e.mem[a] == d.mem[a])
  }

  /** main's frame and everything above it but i and the eight slots: in particular the saved rbp
      and the return address that main itself returns with. */
  ghost predicate FrameKept(f: Frame, home: Mem, m: Mem) {
    |home| == |m| && forall a {:trigger m[a]} ::
      0 <= a < |m| && f.S + 8 <= a && !(f.ip <= a < f.ip + 4) && !(f.env <= a < f.env + 64) ==> m[a] == home[a]
  }

  /** What the call of setjmp in state home put into env, and still is there. */
  ghost predicate ContextIn(f: Frame, home: Cpu, m: Mem) {
    home.regs.rsp == f.S && Slots(m, f.env, 8, Context(home.regs, f.ra))
  }

  /** main is as it called setjmp in state home, back above the return address: its frame, the
      registers it may rely on, the context in env; and i is calls. */
  ghost predicate InMain(f: Frame, home: Cpu, c: Cpu, calls: nat) {
    && Sound(f, c.mem) && ContextIn(f, home, c.mem) && FrameKept(f, home.mem, c.mem)
    && SameCalleeSaved(c.regs.(rsp := f.S), home.regs) && c.regs.rsp == f.S + 8
    && I(f, c.mem) == calls
  }

  /** setjmp, called in state home, has just returned for the (calls + 1)-st time: its value says
      whether it is the first, and i counts the returns before this one. */
  ghost predicate JustReturned(f: Frame, home: Cpu, c: Cpu, calls: nat) {
    && c.pc == f.ra && AsInt(c.regs.rax) == calls
    && InMain(f, home, c, if calls == 0 then 0 else calls - 1)
  }

  /** if (setjmp(jb) != 0) i++; */
  function CountReturn(f: Frame, c: Cpu): Cpu
    requires MappedAt(c.mem, f.ip, 4)
  {
    if AsInt(c.regs.rax) != 0 then c.(mem := Store(c.mem, f.ip, 4, I(f, c.mem) + 1)) else c
  }

  lemma Counted(f: Frame, home: Cpu, c: Cpu, calls: nat)
    requires JustReturned(f, home, c, calls) && calls < 0x8000_0000
    ensures MappedAt(c.mem, f.ip, 4) && InMain(f, home, CountReturn(f, c), calls)
  {
    hide Load, Store, Slots, SameOutside, AsInt;
    assert Pow256(4) == TWO32;
    if calls != 0 {
      LoadStored(c.mem, f.ip, 4, calls);
      StoreOutside(c.mem, f.ip, 4, calls, f.ip, f.ip + 4);
      SlotsKept(c.mem, Store(c.mem, f.ip, 4, calls), f.env, 8, Context(home.regs, f.ra), f.ip, f.ip + 4);
    }
  }

  /** A call of entry k comes back out of setjmp with value k + 1. */
  lemma CallReturns(f: Frame, body: Body, n: nat, home: Cpu, d: Cpu, k: nat, m: Meter)
    requires KeepsFrame(f, body, n) && k < n < 0x8000_0000 && InMain(f, home, d, k)
    ensures var r := RunFor(LIB, 0, body(k, d), m, 30);
      r.Ran? && JustReturned(f, home, r.cpu, k + 1)
  {
    hide RunFor, Load, Read, SameOutside, AsInt, Settable;
    var e, v := body(k, d), Context(home.regs, f.ra);
    assert JumpsBack(f, k, d, e);
    forall j | 0 <= j < 8 ensures Read(e.mem, f.env + 8 * j) == v[j] {
      ReadSame(d.mem, e.mem, f.env + 8 * j);
    }
    LoadSame(d.mem, e.mem, f.ip, 4);
    var q := Longjmp(e, m, v);
    BackInMain(f, home, d, e, q.c, k);
  }

  /** What longjmp leaves of main. */
  lemma BackInMain(f: Frame, home: Cpu, d: Cpu, e: Cpu, c: Cpu, k: nat)
    requires InMain(f, home, d, k) && JumpsBack(f, k, d, e) && ContextIn(f, home, e.mem)
    requires MappedAt(e.mem, f.ip, 4) && I(f, e.mem) == k
    requires SameOutside(e.mem, c.mem, f.S - 48, f.S + 8) && c.regs.rsp == f.S + 8
    requires SameCalleeSaved(c.regs.(rsp := f.S), home.regs)
    ensures InMain(f, home, c, k)
  {
    hide Load, Slots, AsInt;
    LoadOutside(e.mem, c.mem, f.S - 48, f.S + 8, f.ip, 4);
    SlotsKept(e.mem, c.mem, f.env, 8, Context(home.regs, f.ra), f.S - 48, f.S + 8);
  }

  /** The state in which main calls setjmp, with i = 0. */
  ghost predicate AtSetjmp(f: Frame, c: Cpu) {
    && c.pc == SETJMP && c.regs.rdi == f.env && c.regs.rsp == f.S
    && Sound(f, c.mem) && Read(c.mem, f.S) == f.ra && I(f, c.mem) == 0
  }

  lemma FirstReturn(f: Frame, c: Cpu, m: Meter)
    requires AtSetjmp(f, c)
    ensures var r := RunFor(LIB, 0, c, m, 30);
      r.Ran? && JustReturned(f, c, r.cpu, 0)
  {
    hide RunFor, Load, Slots;
    var q := Setjmp(c, m);
    LoadSame(c.mem, q.c.mem, f.ip, 4);
  }

  /** The entries called so far, in order. */
  ghost predicate InOrder(calls: seq<nat>) {
    forall k :: 0 <= k < |calls| ==> calls[k] == k
  }

  /** main from the point where setjmp returns, for one return: count it, and either call the
      next entry, which comes back here, or be done. */
  method OnReturn(f: Frame, body: Body, n: nat, c: Cpu, calls: seq<nat>, ghost home: Cpu)
    returns (finished: bool, calls': seq<nat>, next: Cpu)
    requires KeepsFrame(f, body, n) && n < 0x8000_0000
    requires JustReturned(f, home, c, |calls|) && |calls| <= n && InOrder(calls)
    ensures InOrder(calls') && |calls'| <= n
    ensures finished ==> calls' == calls && |calls| == n && InMain(f, home, next, n)
    ensures !finished ==> |calls'| == |calls| + 1 && JustReturned(f, home, next, |calls'|)
  {
    Counted(f, home, c, |calls|);
    assert I(f, CountReturn(f, c).mem) == |calls|;
    hide KeepsFrame, JustReturned, InMain, RunFor, CountReturn, Load;
    var counted := CountReturn(f, c);
    var i := I(f, counted.mem);
    if i < n {
      CallReturns(f, body, n, home, counted, i, Meter(0, 0));
      return false, calls + [i], RunFor(LIB, 0, body(i, counted), Meter(0, 0), 30).cpu;
    }
    return true, calls, counted;
  }

  /** main: for a table of any length, the entries are called once each, in order, and then main
      returns with i counting them all: rsp, the callee-saved registers and every byte of its
      frame and above are as they were, i and the slots of the jmp_buf apart. */
  method Drive(f: Frame, body: Body, n: nat, c: Cpu) returns (calls: seq<nat>, last: Cpu)
    requires AtSetjmp(f, c) && KeepsFrame(f, body, n) && n < 0x8000_0000
    ensures |calls| == n && forall k :: 0 <= k < n ==> calls[k] == k
    ensures Sound(f, last.mem) && I(f, last.mem) == n
    ensures SameCalleeSaved(last.regs.(rsp := c.regs.rsp), c.regs) && last.regs.rsp == c.regs.rsp + 8
    ensures FrameKept(f, c.mem, last.mem)
  {
    FirstReturn(f, c, Meter(0, 0));
    assert c.regs.rsp == f.S;
    hide KeepsFrame, JustReturned, AtSetjmp, RunFor, Load, Slots;
    last := RunFor(LIB, 0, c, Meter(0, 0), 30).cpu;
    calls := [];
    var finished := false;
    while !finished
      invariant |calls| <= n && InOrder(calls)
      invariant !finished ==> JustReturned(f, c, last, |calls|)
      invariant finished ==> |calls| == n && InMain(f, c, last, n)
      decreases n - |calls|, !finished
    {
      finished, calls, last := OnReturn(f, body, n, last, calls, c);
    }
  }
}
