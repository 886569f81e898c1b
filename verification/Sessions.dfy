/** The debugger's commands as functions on a session, branch by branch. */
module Sessions {
  import opened Words
  import opened Tracee

  datatype Phase = NonLoad | Loaded | Running

  datatype Breakpoint = Breakpoint(id: int, addr: int, orig: Word)

  /** The globals state, pid and bp_list, and the tracee they refer to: mem and regs mean
      something only while the phase is Running. */
  datatype Session<R> = Session(
    phase: Phase, pid: int, bps: seq<Breakpoint>, mem: Mem, regs: Regs<R>)

  predicate Listed(bps: seq<Breakpoint>, a: int) {
    exists i :: 0 <= i < |bps| && bps[i].addr == a
  }

  predicate HasId(bps: seq<Breakpoint>, id: int) {
    exists i :: 0 <= i < |bps| && bps[i].id == id
  }

  // ----- ptrace -----

  function Peek<R>(p: Program<R>, s: Session<R>, a: int): Word
    requires |s.mem| == |p.text| && Mapped(p, a)
  {
    assert Pow256(8) == TWO64;
    Load(s.mem, a - p.base, 8)
  }

  function Poke<R>(p: Program<R>, s: Session<R>, a: int, w: nat): (r: Session<R>)
    requires |s.mem| == |p.text| && Mapped(p, a)
  {
    s.(mem := Store(s.mem, a - p.base, 8, w))
  }

  // ----- commands -----

  /** An unmapped address makes POKETEXT fail, and error() ends the debugger. */
  predicate BreakReturns<R>(p: Program<R>, s: Session<R>, a: int) {
    s.phase == Running && a != 0 ==> Mapped(p, a)
  }

  function Break<R>(p: Program<R>, s: Session<R>, a: int): (r: Session<R>)
    requires |s.mem| == |p.text| && BreakReturns(p, s, a)
    ensures |r.mem| == |p.text|
  {
    if s.phase != Running || a == 0 then s
    else
      var code := Peek(p, s, a);
      if code % 256 == INT3 then s
      else
        var planted := Poke(p, s, a, WithLow(code, INT3));
        if Listed(s.bps, a) then planted
        else planted.(bps := s.bps + [Breakpoint(|s.bps|, a, code)])
  }

  /** Re-arming walks the list and calls bp on every address above rip. */
  ghost predicate CanRearm<R>(p: Program<R>, s: Session<R>) {
    |s.mem| == |p.text| && forall i :: 0 <= i < |s.bps| ==> Mapped(p, s.bps[i].addr)
  }

  ghost function RearmFrom<R>(p: Program<R>, s: Session<R>, i: nat): (r: Session<R>)
    requires CanRearm(p, s) && i <= |s.bps|
    ensures CanRearm(p, r) && r == s.(mem := r.mem)
    decreases |s.bps| - i
  {
    if i == |s.bps| then s
    else RearmFrom(p, if s.bps[i].addr > s.regs.rip then Break(p, s, s.bps[i].addr) else s, i + 1)
  }

  /** After a SIGTRAP, every listed address one below rip counts as a hit: its saved word is
      written back and rip steps down, and the scan goes on with the new rip. */
  ghost function ScanFrom<R>(p: Program<R>, s: Session<R>, i: nat): (r: Session<R>)
    requires CanRearm(p, s) && i <= |s.bps|
    ensures CanRearm(p, r) && r == s.(mem := r.mem, regs := s.regs.(rip := r.regs.rip))
    decreases |s.bps| - i
  {
    if i == |s.bps| then s
    else if s.bps[i].addr == s.regs.rip - 1 then
      ScanFrom(p, Poke(p, s, s.bps[i].addr, s.bps[i].orig).(regs := s.regs.(rip := s.regs.rip - 1)), i + 1)
    else ScanFrom(p, s, i + 1)
  }

  function Exit<R>(s: Session<R>): Session<R> {
    s.(phase := Loaded, pid := 0)
  }

  /** chkstat on what waitpid reported. */
  ghost function ChkStat<R>(p: Program<R>, s: Session<R>, stop: Stop<R>): (r: Session<R>)
    requires CanRearm(p, s)
    ensures CanRearm(p, r)
  {
    match stop
    case AtExit(_) => Exit(s)
    case AtTrap(r, _) => ScanFrom(p, s.(regs := r), 0)
    case Busy => s
  }

  ghost function ContStop<R>(p: Program<R>, s: Session<R>, n: nat): Stop<R>
    requires CanRearm(p, s)
  {
    RunToStop(p, RearmFrom(p, s, 0).mem, s.regs, n)
  }

  /** n bounds how long waitpid blocks: the process stops within n instructions. */
  ghost predicate ContReturns<R>(p: Program<R>, s: Session<R>, n: nat)
    requires CanRearm(p, s)
  {
    s.phase == Running ==> !ContStop(p, s, n).Busy?
  }

  ghost function Cont<R>(p: Program<R>, s: Session<R>, n: nat): (r: Session<R>)
    requires CanRearm(p, s) && ContReturns(p, s, n)
    ensures CanRearm(p, r)
  {
    if s.phase != Running then s else ChkStat(p, RearmFrom(p, s, 0), ContStop(p, s, n))
  }

  ghost function Si<R>(p: Program<R>, s: Session<R>): (r: Session<R>)
    requires CanRearm(p, s)
    ensures CanRearm(p, r)
  {
    if s.phase != Running then s
    else ChkStat(p, RearmFrom(p, s, 0), SingleStep(p, RearmFrom(p, s, 0).mem, s.regs))
  }

  /** The entry is found by its id, but the list is then indexed by that id. */
  ghost predicate DeleteDefined<R>(s: Session<R>, id: int) {
    s.phase == Running && HasId(s.bps, id) ==> 0 <= id < |s.bps|
  }

  ghost function Delete<R>(p: Program<R>, s: Session<R>, id: int): (r: Session<R>)
    requires CanRearm(p, s) && DeleteDefined(s, id)
    ensures CanRearm(p, r)
  {
    if s.phase != Running || !HasId(s.bps, id) then s
    else Poke(p, s, s.bps[id].addr, s.bps[id].orig).(bps := s.bps[..id] + s.bps[id + 1..])
  }

  function Start<R>(p: Program<R>, s: Session<R>, pid: int): (r: Session<R>)
  {
    if s.phase != Loaded || s.pid != 0 then s
    else s.(phase := Running, pid := pid, mem := p.text, regs := p.entry)
  }

  /** A file that is not a 64-bit ELF is refused; so is any load while LOADED. */
  function LoadFile<R>(s: Session<R>, elf64: bool): Session<R> {
    if s.phase == Loaded || !elf64 then s else s.(phase := Loaded)
  }

  function SetRegs<R>(s: Session<R>, regs: Regs<R>): Session<R> {
    if s.phase != Running then s else s.(regs := regs)
  }
}
