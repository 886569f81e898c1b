/** The debugger as the source has it: globals that every command updates, a tracee whose text
    is poked in place, and loops that scan the list. Each method computes the session function
    of the same command, so the theorems about sessions are theorems about these methods. */
module DebuggerCommands {
  import opened Words
  import opened Tracee
  import opened Sessions
  import opened Runs

  class Debugger<R(!new)> {
    const p: Program<R>

    var state: Phase
    var pid: int
    var bpList: seq<Breakpoint>

    // the tracee, behind ptrace
    var mem: array<Byte>
    var regs: Regs<R>

    ghost predicate Valid()
      reads this, mem
    {
      mem.Length == |p.text|
    }

    ghost function Abs(): Session<R>
      reads this, mem
    {
      Session(state, pid, bpList, mem[..], regs)
    }

    constructor (p: Program<R>)
      ensures Valid() && fresh(mem) && this.p == p
      ensures Abs() == Session(NonLoad, 0, [], p.text, p.entry)
    {
      this.p := p;
      state, pid, bpList, regs := NonLoad, 0, [], p.entry;
      mem := new Byte[|p.text|](i requires 0 <= i < |p.text| => p.text[i]);
      new;
      assert mem[..] == p.text;
    }

    // ----- ptrace and waitpid -----

    method PeekText(a: int) returns (w: Word)
      requires Valid() && Mapped(p, a)
      ensures w == Peek(p, Abs(), a)
    {
      assert Pow256(8) == TWO64;
      w := Load(mem[..], a - p.base, 8);
    }

    method PokeText(a: int, w: Word)
      requires Valid() && Mapped(p, a)
      modifies mem
      ensures Abs() == Poke(p, old(Abs()), a, w)
    {
      StoreBytes(mem, a - p.base, w);
    }

    // ----- commands -----

    /** ok is false when POKETEXT fails and error() ends the debugger. */
    method Bp(addr: int) returns (ok: bool)
      requires Valid()
      modifies this`bpList, mem
      ensures Valid() && ok == BreakReturns(p, old(Abs()), addr)
      ensures ok ==> Abs() == Break(p, old(Abs()), addr)
      ensures !ok ==> Abs() == old(Abs())
    {
      if state != Running || addr == 0 {
        return true;
      }
      if !Mapped(p, addr) {
        return false;
      }
      var code := PeekText(addr);
      if code % 256 == INT3 {
        return true;
      }
      PatchIsByteUpdate(mem[..], addr - p.base, INT3);
      PokeText(addr, WithLow(code, INT3));
      for i := 0 to |bpList|
        invariant forall j :: 0 <= j < i ==> bpList[j].addr != addr
      {
        if bpList[i].addr == addr {
          return true;
        }
      }
      bpList := bpList + [Breakpoint(|bpList|, addr, code)];
      return true;
    }

    method ChkBp()
      requires Valid() && CanRearm(p, Abs())
      modifies this`bpList, mem
      ensures Valid() && Abs() == RearmFrom(p, old(Abs()), 0)
    {
      var i := 0;
      while i < |bpList|
        invariant Valid() && CanRearm(p, Abs()) && 0 <= i <= |bpList|
        invariant RearmFrom(p, Abs(), i) == RearmFrom(p, old(Abs()), 0)
        decreases |Abs().bps| - i
      {
        ghost var before := Abs();
        if bpList[i].addr > regs.rip {
          var ok := Bp(bpList[i].addr);
          assert Abs() == Break(p, before, before.bps[i].addr);
          assert bpList == before.bps by { BreakListed(p, before, i); }
        }
        i := i + 1;
      }
    }

    method ChkStat(stop: Stop<R>)
      requires Valid() && CanRearm(p, Abs()) && !stop.Busy?
      modifies this`state, this`pid, this`regs, mem
      ensures Valid() && Abs() == Sessions.ChkStat(p, old(Abs()), stop)
    {
      match stop
      case AtExit(_) =>
        pid := 0;
        state := Loaded;
      case AtTrap(r, _) =>
        regs := r;
        var i := 0;
        while i < |bpList|
          invariant Valid() && CanRearm(p, Abs()) && 0 <= i <= |bpList|
          invariant ScanFrom(p, Abs(), i) == ScanFrom(p, old(Abs()).(regs := r), 0)
        {
          if bpList[i].addr == regs.rip - 1 {
            PokeText(bpList[i].addr, bpList[i].orig);
            regs := regs.(rip := regs.rip - 1);
          }
          i := i + 1;
        }
    }

    method Cont(ghost n: nat)
      requires Valid() && CanRearm(p, Abs()) && ContReturns(p, Abs(), n)
      modifies this`state, this`pid, this`bpList, this`regs, mem
      ensures Valid() && Abs() == Sessions.Cont(p, old(Abs()), n)
    {
      if state != Running {
        return;
      }
      ChkBp();
      var stop := RunUntilStop(p, mem, regs, n);
      ChkStat(stop);
    }

    method Si()
      requires Valid() && CanRearm(p, Abs())
      modifies this`state, this`pid, this`bpList, this`regs, mem
      ensures Valid() && Abs() == Sessions.Si(p, old(Abs()))
    {
      if state != Running {
        return;
      }
      ChkBp();
      ChkStat(SingleStep(p, mem[..], regs));
    }

    method Del(id: int)
      requires Valid() && CanRearm(p, Abs()) && DeleteDefined(Abs(), id)
      modifies this`bpList, mem
      ensures Valid() && Abs() == Delete(p, old(Abs()), id)
    {
      if state != Running {
        return;
      }
      for i := 0 to |bpList|
        invariant Abs() == old(Abs()) && Valid()
        invariant forall j :: 0 <= j < i ==> bpList[j].id != id
      {
        if bpList[i].id == id {
          assert HasId(bpList, id);
          PokeText(bpList[id].addr, bpList[id].orig);
          bpList := bpList[..id] + bpList[id + 1..];
          return;
        }
      }
    }

    /** fork and exec give the child a fresh copy of the text. */
    method Start(child: int)
      requires Valid()
      modifies this`state, this`pid, this`regs, this`mem
      ensures Valid() && (mem == old(mem) || fresh(mem))
      ensures Abs() == Sessions.Start(p, old(Abs()), child)
    {
      if state != Loaded || pid != 0 {
        return;
      }
      pid := child;
      mem := new Byte[|p.text|](i requires 0 <= i < |p.text| => p.text[i]);
      assert mem[..] == p.text;
      regs := p.entry;
      state := Running;
    }

    method Run(child: int, ghost n: nat)
      requires Valid() && CanRearm(p, Abs())
      requires state == Running ==> ContReturns(p, Abs(), n)
      requires state == Loaded ==> ContReturns(p, Sessions.Start(p, Abs(), child), n)
      modifies this`state, this`pid, this`bpList, this`regs, this`mem, mem
      ensures Valid() && (mem == old(mem) || fresh(mem))
      ensures Abs() ==
        if old(state) == Running then Sessions.Cont(p, old(Abs()), n)
        else if old(state) == Loaded then Sessions.Cont(p, Sessions.Start(p, old(Abs()), child), n)
        else old(Abs())
    {
      if state == Running {
        Cont(n);
      } else if state == Loaded {
        Start(child);
        Cont(n);
      }
    }

    method LoadFile(elf64: bool)
      modifies this`state
      ensures Abs() == Sessions.LoadFile(old(Abs()), elf64)
    {
      if state == Loaded || !elf64 {
        return;
      }
      state := Loaded;
    }

    method SetRegs(r: Regs<R>)
      modifies this`regs
      ensures Abs() == Sessions.SetRegs(old(Abs()), r)
    {
      if state != Running {
        return;
      }
      regs := r;
    }

    // ----- the command loop -----

    method Dispatch(c: Cmd<R>)
      requires Valid() && CanRearm(p, Abs()) && Returns(p, Abs(), c)
      modifies this`state, this`pid, this`bpList, this`regs, this`mem, mem
      ensures Valid() && (mem == old(mem) || fresh(mem))
      ensures Abs() == Exec(p, old(Abs()), c)
    {
      match c
      case CBreak(a) => var _ := Bp(a);
      case CCont(n) => Cont(n);
      case CSi => Si();
      case CDelete(id) => Del(id);
      case CStart(child) => Start(child);
      case CRun(child, n) => Run(child, n);
      case CSet(r) => SetRegs(r);
      case CLoad(elf64) => LoadFile(elf64);
    }

    /** A script of commands, read to its end. */
    method Interact(cs: seq<Cmd<R>>)
      requires Valid() && ReturnsRun(p, Abs(), cs)
      modifies this`state, this`pid, this`bpList, this`regs, this`mem, mem
      ensures Valid() && Abs() == Final(p, old(Abs()), cs)
    {
      for i := 0 to |cs|
        invariant Valid() && (mem == old(mem) || fresh(mem))
        invariant ReturnsRun(p, Abs(), cs[i..])
        invariant Final(p, Abs(), cs[i..]) == Final(p, old(Abs()), cs)
      {
        assert cs[i..][0] == cs[i] && cs[i..][1..] == cs[i + 1..];
        Dispatch(cs[i]);
      }
    }
  }

  lemma BreakListed<R>(p: Program<R>, s: Session<R>, i: nat)
    requires CanRearm(p, s) && i < |s.bps|
    ensures Break(p, s, s.bps[i].addr).bps == s.bps
  {
    assert Listed(s.bps, s.bps[i].addr);
  }
}
