/** The traced process: program text in byte memory, and a processor that traps on 0xcc. */
module Tracee {
  import opened Words

  const INT3: Byte := 0xcc

  /** The instruction pointer, and everything else a process owns except its text. */
  datatype Regs<R> = Regs(rip: int, rest: R)

  datatype Outcome<R> = Next(regs: Regs<R>) | Exit

  /** A program: its text at addresses base, base + 1, ...; its state at the first
      instruction; the length of the instruction that starts at an address; and what
      executing one instruction does. The processor itself is left abstract. */
  datatype Program<!R> = Program(
    base: int,
    text: Mem,
    entry: Regs<R>,
    len: int -> nat,
    exec: (Mem, Regs<R>) -> Outcome<R>)

  predicate InText<R>(p: Program<R>, a: int) {
    p.base <= a < p.base + |p.text|
  }

  /** PEEKTEXT and POKETEXT move whole words, so all eight bytes must be mapped. */
  predicate Mapped<R>(p: Program<R>, a: int) {
    p.base <= a && a + 8 <= p.base + |p.text|
  }

  /** Execution depends on the text only through the bytes of the current instruction. */
  ghost predicate ReadsOwnBytes<R(!new)>(p: Program<R>) {
    forall m: Mem, regs: Regs<R> ::
      |m| == |p.text| &&
      (forall a :: regs.rip <= a < regs.rip + p.len(regs.rip) && InText(p, a) ==>
        m[a - p.base] == p.text[a - p.base])
      ==> p.exec(m, regs) == p.exec(p.text, regs)
  }

  // ----- the undebugged run -----

  /** One step with the text untouched. An int3 of the program's own only advances rip:
      both tracers resume without delivering the signal. */
  function NativeStep<R>(p: Program<R>, regs: Regs<R>): Outcome<R> {
    if InText(p, regs.rip) && p.text[regs.rip - p.base] == INT3
    then Next(regs.(rip := regs.rip + 1))
    else p.exec(p.text, regs)
  }

  /** The state after k undebugged steps from o. */
  function Native<R>(p: Program<R>, o: Regs<R>, k: nat): Outcome<R> {
    if k == 0 then Next(o)
    else match Native(p, o, k - 1)
      case Exit => Exit
      case Next(regs) => NativeStep(p, regs)
  }

  /** Address b is never strictly inside an instruction executed by the run from o. */
  ghost predicate Aligned<R>(p: Program<R>, o: Regs<R>, b: int) {
    forall k: nat :: Native(p, o, k).Next? ==>
      var rip := Native(p, o, k).regs.rip;
      !(rip < b < rip + p.len(rip))
  }

  // ----- the run under ptrace -----

  /** What the processor does with the text as it is now in memory. */
  datatype Event<R> = Stepped(regs: Regs<R>) | Trapped(regs: Regs<R>) | Exited

  function CpuStep<R>(p: Program<R>, mem: Mem, regs: Regs<R>): Event<R>
    requires |mem| == |p.text|
  {
    if InText(p, regs.rip) && mem[regs.rip - p.base] == INT3 then
      Trapped(regs.(rip := regs.rip + 1))
    else
      match p.exec(mem, regs)
      case Next(r) => Stepped(r)
      case Exit => Exited
  }

  /** What waitpid reports after PTRACE_CONT, with the states whose instruction was completed
      before the stop; Busy if the process is still running after n instructions. */
  datatype Stop<R> = AtTrap(regs: Regs<R>, path: seq<Regs<R>>) | AtExit(path: seq<Regs<R>>) | Busy

  function After<R>(regs: Regs<R>, s: Stop<R>): Stop<R> {
    match s
    case AtTrap(r, path) => AtTrap(r, [regs] + path)
    case AtExit(path) => AtExit([regs] + path)
    case Busy => Busy
  }

  function RunToStop<R>(p: Program<R>, mem: Mem, regs: Regs<R>, n: nat): Stop<R>
    requires |mem| == |p.text|
    decreases n
  {
    if n == 0 then Busy
    else match CpuStep(p, mem, regs)
      case Trapped(r) => AtTrap(r, [])
      case Exited => AtExit([regs])
      case Stepped(r) => After(regs, RunToStop(p, mem, r, n - 1))
  }

  function Prepend<R>(path: seq<Regs<R>>, s: Stop<R>): Stop<R> {
    match s
    case AtTrap(r, rest) => AtTrap(r, path + rest)
    case AtExit(rest) => AtExit(path + rest)
    case Busy => Busy
  }

  lemma PrependAfter<R>(path: seq<Regs<R>>, regs: Regs<R>, tail: Stop<R>)
    ensures Prepend(path, After(regs, tail)) == Prepend(path + [regs], tail)
  {
    if !tail.Busy? {
      assert path + ([regs] + tail.path) == path + [regs] + tail.path;
    }
  }

  /** PTRACE_CONT, then waitpid: the processor runs until it traps or exits. */
  method RunUntilStop<R>(p: Program<R>, mem: array<Byte>, regs: Regs<R>, ghost n: nat)
    returns (stop: Stop<R>)
    requires mem.Length == |p.text| && !RunToStop(p, mem[..], regs, n).Busy?
    ensures stop == RunToStop(p, mem[..], regs, n)
  {
    var image, cur, path := mem[..], regs, [];
    ghost var left := n;
    while true
      invariant RunToStop(p, image, regs, n) == Prepend(path, RunToStop(p, image, cur, left))
      decreases left
    {
      match CpuStep(p, image, cur) {
        case Trapped(r) =>
          assert path + [] == path;
          return AtTrap(r, path);
        case Exited =>
          return AtExit(path + [cur]);
        case Stepped(r) =>
          PrependAfter(path, cur, RunToStop(p, image, r, left - 1));
          path, cur, left := path + [cur], r, left - 1;
      }
    }
  }

  /** What waitpid reports after PTRACE_SINGLESTEP: a SIGTRAP after one instruction, too. */
  function SingleStep<R>(p: Program<R>, mem: Mem, regs: Regs<R>): Stop<R>
    requires |mem| == |p.text|
  {
    match CpuStep(p, mem, regs)
    case Trapped(r) => AtTrap(r, [])
    case Exited => AtExit([regs])
    case Stepped(r) => AtTrap(r, [regs])
  }

  // ----- a patched text runs like the original until it traps -----

  /** Every byte is the original one, or is 0xcc at an address satisfying sites. */
  ghost predicate PatchedAt<R>(p: Program<R>, mem: Mem, sites: set<int>) {
    |mem| == |p.text| &&
    forall k {:trigger mem[k]} :: 0 <= k < |mem| ==> mem[k] == p.text[k] || (mem[k] == INT3 && p.base + k in sites)
  }

  ghost predicate AllAligned<R>(p: Program<R>, o: Regs<R>, sites: set<int>) {
    forall b :: b in sites ==> Aligned(p, o, b)
  }

  /** The byte under rip decides: original byte, native step; planted 0xcc, trap. */
  lemma StepAgrees<R(!new)>(p: Program<R>, mem: Mem, sites: set<int>, o: Regs<R>, k: nat)
    requires ReadsOwnBytes(p) && PatchedAt(p, mem, sites) && AllAligned(p, o, sites)
    requires Native(p, o, k).Next?
    ensures var regs := Native(p, o, k).regs;
      match CpuStep(p, mem, regs)
      case Stepped(r) => Native(p, o, k + 1) == Next(r)
      case Exited => Native(p, o, k + 1) == Exit
      case Trapped(r) =>
        r == regs.(rip := regs.rip + 1) &&
        InText(p, regs.rip) && mem[regs.rip - p.base] == INT3 &&
        (p.text[regs.rip - p.base] == INT3 ==> Native(p, o, k + 1) == Next(r))
  {
    var regs := Native(p, o, k).regs;
    if !(InText(p, regs.rip) && mem[regs.rip - p.base] == INT3) {
      forall a | regs.rip <= a < regs.rip + p.len(regs.rip) && InText(p, a)
        ensures mem[a - p.base] == p.text[a - p.base]
      {
        if a != regs.rip {
          assert a in sites ==> Aligned(p, o, a);
          assert p.base + (a - p.base) !in sites;
        }
      }
      assert p.exec(mem, regs) == p.exec(p.text, regs);
    }
  }

  /** The path is the run from state k of the native run from o. */
  ghost predicate IsNativePath<R>(p: Program<R>, o: Regs<R>, k: nat, path: seq<Regs<R>>) {
    forall i :: 0 <= i < |path| ==> Native(p, o, k + i) == Next(path[i])
  }

  /** The stop is one the native run explains: the path is native, an exit is the native
      exit, and a trap is a 0xcc in memory under a native state. */
  ghost predicate StopsLikeNative<R>(p: Program<R>, mem: Mem, o: Regs<R>, k: nat, s: Stop<R>)
    requires |mem| == |p.text|
  {
    match s
    case Busy => true
    case AtExit(path) => IsNativePath(p, o, k, path) && Native(p, o, k + |path|) == Exit
    case AtTrap(r, path) =>
      IsNativePath(p, o, k, path) && TrapsAtNative(p, mem, o, k + |path|, r)
  }

  ghost predicate TrapsAtNative<R>(p: Program<R>, mem: Mem, o: Regs<R>, k: nat, r: Regs<R>)
    requires |mem| == |p.text|
  {
    && Native(p, o, k) == Next(r.(rip := r.rip - 1))
    && InText(p, r.rip - 1)
    && mem[r.rip - 1 - p.base] == INT3
    && (p.text[r.rip - 1 - p.base] == INT3 ==> Native(p, o, k + 1) == Next(r))
  }

  /** One step in front of a stop that the native run explains. */
  lemma StopAfterStep<R>(p: Program<R>, mem: Mem, o: Regs<R>, k: nat, regs: Regs<R>, tail: Stop<R>)
    requires |mem| == |p.text|
    requires Native(p, o, k) == Next(regs) && StopsLikeNative(p, mem, o, k + 1, tail)
    ensures StopsLikeNative(p, mem, o, k, After(regs, tail))
  {
    if !tail.Busy? {
      PathExtends(p, o, k, tail.path, regs);
      assert k + |[regs] + tail.path| == k + 1 + |tail.path|;
    }
  }

  /** From any native state, the patched run takes exactly the native steps up to its stop. */
  lemma {:induction false} RunAgrees<R(!new)>(
    p: Program<R>, mem: Mem, sites: set<int>, o: Regs<R>, k: nat, n: nat)
    requires ReadsOwnBytes(p) && PatchedAt(p, mem, sites) && AllAligned(p, o, sites)
    requires Native(p, o, k).Next?
    ensures StopsLikeNative(p, mem, o, k, RunToStop(p, mem, Native(p, o, k).regs, n))
    decreases n
  {
    var regs := Native(p, o, k).regs;
    assert |mem| == |p.text|;
    hide ReadsOwnBytes, PatchedAt, AllAligned, StopsLikeNative, Native;
    if n == 0 {
      NotYet(p, mem, o, k);
    } else {
      match CpuStep(p, mem, regs)
      case Trapped(r) => StopHere(p, mem, sites, o, k, n);
      case Exited => StopHere(p, mem, sites, o, k, n);
      case Stepped(r) =>
        StepAgrees(p, mem, sites, o, k);
        RunAgrees(p, mem, sites, o, k + 1, n - 1);
        StopAfterStep(p, mem, o, k, regs, RunToStop(p, mem, r, n - 1));
    }
  }

  lemma NotYet<R>(p: Program<R>, mem: Mem, o: Regs<R>, k: nat)
    requires |mem| == |p.text|
    ensures StopsLikeNative(p, mem, o, k, Busy)
  {
  }

  /** A run that does not step is at its stop. */
  lemma StopAtOnce<R>(p: Program<R>, mem: Mem, regs: Regs<R>, n: nat)
    requires |mem| == |p.text| && n > 0 && !CpuStep(p, mem, regs).Stepped?
    ensures RunToStop(p, mem, regs, n) ==
      match CpuStep(p, mem, regs)
      case Trapped(r) => AtTrap(r, [])
      case _ => AtExit([regs])
  {
  }

  lemma TrapAtOnce<R>(p: Program<R>, mem: Mem, o: Regs<R>, k: nat, r: Regs<R>)
    requires |mem| == |p.text| && TrapsAtNative(p, mem, o, k, r)
    ensures StopsLikeNative(p, mem, o, k, AtTrap(r, []))
  {
    hide Native;
  }

  lemma ExitAtOnce<R>(p: Program<R>, mem: Mem, o: Regs<R>, k: nat, regs: Regs<R>)
    requires |mem| == |p.text| && Native(p, o, k) == Next(regs) && Native(p, o, k + 1) == Exit
    ensures StopsLikeNative(p, mem, o, k, AtExit([regs]))
  {
    hide Native;
  }

  lemma StopHere<R(!new)>(p: Program<R>, mem: Mem, sites: set<int>, o: Regs<R>, k: nat, n: nat)
    requires ReadsOwnBytes(p) && PatchedAt(p, mem, sites) && AllAligned(p, o, sites)
    requires Native(p, o, k).Next? && n > 0 && !CpuStep(p, mem, Native(p, o, k).regs).Stepped?
    ensures StopsLikeNative(p, mem, o, k, RunToStop(p, mem, Native(p, o, k).regs, n))
  {
    assert |mem| == |p.text|;
    StepAgrees(p, mem, sites, o, k);
    var regs := Native(p, o, k).regs;
    StopAtOnce(p, mem, regs, n);
    hide ReadsOwnBytes, PatchedAt, AllAligned, RunToStop, Native, StopsLikeNative;
    match CpuStep(p, mem, regs)
    case Trapped(r) =>
      assert r.(rip := r.rip - 1) == regs;
      TrapAtOnce(p, mem, o, k, r);
    case Exited => ExitAtOnce(p, mem, o, k, regs);
    case Stepped(_) =>
  }

  lemma PathExtends<R>(p: Program<R>, o: Regs<R>, k: nat, path: seq<Regs<R>>, regs: Regs<R>)
    requires Native(p, o, k) == Next(regs) && IsNativePath(p, o, k + 1, path)
    ensures IsNativePath(p, o, k, [regs] + path)
  {
    forall i | 0 < i < |[regs] + path|
      ensures Native(p, o, k + i) == Next(([regs] + path)[i])
    {
      assert Native(p, o, k + 1 + (i - 1)) == Next(path[i - 1]);
    }
  }

  lemma PathJoins<R>(p: Program<R>, o: Regs<R>, path: seq<Regs<R>>, more: seq<Regs<R>>)
    requires IsNativePath(p, o, 0, path) && IsNativePath(p, o, |path|, more)
    ensures IsNativePath(p, o, 0, path + more)
  {
    hide Native;
    forall i | |path| <= i < |path + more| ensures Native(p, o, 0 + i) == Next((path + more)[i]) {
      assert Native(p, o, |path| + (i - |path|)) == Next(more[i - |path|]);
    }
  }

  /** No instruction completed before the stop starts at a byte that holds 0xcc. */
  lemma {:induction false} NeverRunsTrapByte<R>(p: Program<R>, mem: Mem, regs: Regs<R>, n: nat)
    requires |mem| == |p.text| && !RunToStop(p, mem, regs, n).Busy?
    ensures forall i :: 0 <= i < |RunToStop(p, mem, regs, n).path| ==>
      var a := RunToStop(p, mem, regs, n).path[i].rip;
      InText(p, a) ==> mem[a - p.base] != INT3
    decreases n
  {
    var e := CpuStep(p, mem, regs);
    if e.Stepped? {
      NeverRunsTrapByte(p, mem, e.regs, n - 1);
    }
  }

  /** A run that is still going has made as many native steps as it was given. */
  lemma {:induction false} BusyIsAlive<R(!new)>(
    p: Program<R>, mem: Mem, sites: set<int>, o: Regs<R>, k: nat, n: nat)
    requires ReadsOwnBytes(p) && PatchedAt(p, mem, sites) && AllAligned(p, o, sites)
    requires Native(p, o, k).Next? && RunToStop(p, mem, Native(p, o, k).regs, n).Busy?
    ensures Native(p, o, k + n).Next?
    decreases n
  {
    assert |mem| == |p.text|;
    hide ReadsOwnBytes, PatchedAt, AllAligned;
    if n != 0 {
      StepAgrees(p, mem, sites, o, k);
      BusyIsAlive(p, mem, sites, o, k + 1, n - 1);
    }
  }

  lemma {:induction false} ExitIsFinal<R>(p: Program<R>, o: Regs<R>, k: nat, j: nat)
    requires Native(p, o, k) == Exit
    ensures Native(p, o, k + j) == Exit
    decreases j
  {
    if j != 0 {
      ExitIsFinal(p, o, k, j - 1);
    }
  }

  /** More patience does not change where a run stops. */
  lemma {:induction false} StopIsStable<R>(p: Program<R>, mem: Mem, regs: Regs<R>, n: nat, n': nat)
    requires |mem| == |p.text| && n <= n' && !RunToStop(p, mem, regs, n).Busy?
    ensures RunToStop(p, mem, regs, n') == RunToStop(p, mem, regs, n)
    decreases n
  {
    var e := CpuStep(p, mem, regs);
    if e.Stepped? {
      StopIsStable(p, mem, e.regs, n - 1, n' - 1);
    }
  }
}
