/** What every command may change, and when it is refused. */
module Commands {
  import opened Words
  import opened Tracee
  import opened Sessions
  import opened ImageInvariant
  import opened Runs

  /** The debugger acts on the command; otherwise it prints a message, or says nothing. */
  predicate Accepted<R>(s: Session<R>, c: Cmd<R>) {
    match c
    case CBreak(a) => s.phase == Running && a != 0
    case CCont(_) => s.phase == Running
    case CSi => s.phase == Running
    case CDelete(id) => s.phase == Running && HasId(s.bps, id)
    case CStart(_) => s.phase == Loaded && s.pid == 0
    case CRun(_, _) => s.phase == Running || (s.phase == Loaded && s.pid == 0)
    case CSet(_) => s.phase == Running
    case CLoad(elf64) => s.phase != Loaded && elf64
  }

  /** A refused command leaves the session as it was: in particular everything but load outside
      RUNNING and LOADED, and a load of a file that is not a 64-bit ELF in any state. */
  lemma RefusedChangesNothing<R>(p: Program<R>, s: Session<R>, c: Cmd<R>)
    requires CanRearm(p, s) && Returns(p, s, c) && !Accepted(s, c)
    ensures Exec(p, s, c) == s
  {
  }

  /** How the process that a command resumes comes to its stop. */
  ghost function Resumed<R>(p: Program<R>, s: Session<R>, c: Cmd<R>): Stop<R>
    requires CanRearm(p, s) && (c.CCont? || c.CSi? || c.CRun?)
  {
    match c
    case CCont(n) => ContStop(p, s, n)
    case CRun(pid, n) => ContStop(p, RunFrom(p, s, pid), n)
    case CSi => SingleStep(p, RearmFrom(p, s, 0).mem, s.regs)
  }

  /** The phase and the pid after every command that is acted on. */
  lemma PhaseExact<R>(p: Program<R>, s: Session<R>, c: Cmd<R>)
    requires CanRearm(p, s) && Returns(p, s, c) && Accepted(s, c)
    ensures c.CLoad? ==> Exec(p, s, c) == s.(phase := Loaded)
    ensures c.CStart? ==> Exec(p, s, c) == Session(Running, c.pid, s.bps, p.text, p.entry)
    ensures c.CSet? ==> Exec(p, s, c) == s.(regs := c.regs)
    ensures var r := Exec(p, s, c); c.CBreak? || c.CDelete? ==> r == s.(mem := r.mem, bps := r.bps)
    ensures var r := Exec(p, s, c); c.CCont? || c.CSi? || c.CRun? ==>
      && r.bps == s.bps
      && r.phase == (if Resumed(p, s, c).AtExit? then Loaded else Running)
      && r.pid == (if Resumed(p, s, c).AtExit? then 0 else if s.phase == Loaded then c.pid else s.pid)
  {
    hide Store, Peek, RunToStop, CanRearm;
  }

  /** The list changes exactly by a break, acted on, at an address neither listed nor holding 0xcc,
      and by a delete of a listed id. */
  lemma ListExact<R>(p: Program<R>, s: Session<R>, c: Cmd<R>)
    requires CanRearm(p, s) && Returns(p, s, c)
    ensures Exec(p, s, c).bps != s.bps <==>
      Accepted(s, c) && (c.CDelete? ||
        (c.CBreak? && !Listed(s.bps, c.addr) && s.mem[c.addr - p.base] != INT3))
  {
    if !Accepted(s, c) {
      RefusedChangesNothing(p, s, c);
    } else if c.CBreak? {
      BreakEffect(p, s, c.addr);
    } else if !c.CDelete? {
      PhaseExact(p, s, c);
    }
  }

  /** No program is loaded exactly as long as none was and no 64-bit ELF file is. */
  lemma NonLoadExact<R>(p: Program<R>, s: Session<R>, c: Cmd<R>)
    requires CanRearm(p, s) && Returns(p, s, c)
    ensures Exec(p, s, c).phase == NonLoad <==> s.phase == NonLoad && c != CLoad(true)
    ensures s.phase == NonLoad && c != CLoad(true) ==> Exec(p, s, c) == s
  {
    if Accepted(s, c) {
      PhaseExact(p, s, c);
    } else {
      RefusedChangesNothing(p, s, c);
    }
  }

  lemma {:induction false} StaysLoaded<R>(p: Program<R>, s: Session<R>, cs: seq<Cmd<R>>)
    requires ReturnsRun(p, s, cs) && s.phase != NonLoad
    ensures Final(p, s, cs).phase != NonLoad
    decreases |cs|
  {
    if cs != [] {
      NonLoadExact(p, s, cs[0]);
      StaysLoaded(p, Exec(p, s, cs[0]), cs[1..]);
    }
  }

  /** From the first prompt: a script without a load of a 64-bit ELF file changes nothing at all, and
      after one with such a load a program is loaded or running. */
  lemma {:induction false} NothingWithoutLoad<R>(p: Program<R>, cs: seq<Cmd<R>>)
    requires ReturnsRun(p, Fresh(p), cs)
    ensures CLoad(true) !in cs ==> Final(p, Fresh(p), cs) == Fresh(p)
    ensures CLoad(true) in cs ==> Final(p, Fresh(p), cs).phase != NonLoad
    decreases |cs|
  {
    if cs != [] {
      NonLoadExact(p, Fresh(p), cs[0]);
      assert cs == [cs[0]] + cs[1..];
      if cs[0] == CLoad(true) {
        StaysLoaded(p, Exec(p, Fresh(p), cs[0]), cs[1..]);
      } else {
        NothingWithoutLoad(p, cs[1..]);
      }
    }
  }
}
