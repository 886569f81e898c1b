/** How often a resume can make no progress: exactly which commands put a planted byte under rip,
    and the count of fruitless resumes over a run. */
module Stuttering {
  import opened Words
  import opened Tracee
  import opened Sessions
  import opened ImageInvariant
  import opened Runs
  import opened Transparency
  import opened FaithfulRuns

  /** The next resume would make no native step. */
  predicate Stalled<R>(p: Program<R>, s: Session<R>)
    requires |s.mem| == |p.text|
  {
    s.phase == Running && OnPlanted(p, s)
  }

  /** The stop is the program's own int3, and the instruction after it is a listed address that
      re-arming has given its 0xcc. */
  ghost predicate LandsArmed<R>(p: Program<R>, s: Session<R>, stop: Stop<R>)
    requires |s.mem| == |p.text|
  {
    stop.AtTrap? && OwnTrap(p, stop.regs) && Armed(p, s, stop.regs.rip)
  }

  /** The command leaves a planted byte under rip where there was none: a break at rip; a delete
      that writes another listed entry's 0xcc back under rip; registers set onto a planted byte;
      a single step onto an armed address; or the program's own int3 just before one. */
  ghost predicate Plants<R>(p: Program<R>, s: Session<R>, c: Cmd<R>)
    requires CanRearm(p, s) && Returns(p, s, c)
  {
    match c
    case CBreak(a) => s.phase == Running && a != 0 && a == s.regs.rip && p.text[a - p.base] != INT3
    case CDelete(id) =>
      s.phase == Running && HasId(s.bps, id) && Imprint(s.bps[id], s.regs.rip) && Listed(s.bps, s.regs.rip)
    case CSet(regs) => s.phase == Running && OnPlanted(p, s.(regs := regs))
    case CSi => s.phase == Running && !FalseHit(p, s) && StepsOnto(p, s)
    case CCont(n) => s.phase == Running && LandsArmed(p, s, ContStop(p, s, n))
    case CRun(pid, n) => s.phase != NonLoad && LandsArmed(p, RunFrom(p, s, pid), ContStop(p, RunFrom(p, s, pid), n))
    case _ => false
  }

  ghost predicate StepsOnto<R>(p: Program<R>, s: Session<R>)
    requires |s.mem| == |p.text|
  {
    match NativeStep(p, s.regs)
    case Exit => false
    case Next(next) => Armed(p, s, next.rip)
  }

  // ----- one command -----

  lemma BreakPlants<R>(p: Program<R>, s: Session<R>, a: int)
    requires |s.mem| == |p.text| && s.phase == Running && !OnPlanted(p, s) && BreakReturns(p, s, a)
    ensures Break(p, s, a).phase == Running
    ensures OnPlanted(p, Break(p, s, a)) <==> a != 0 && a == s.regs.rip && p.text[a - p.base] != INT3
  {
    if a != 0 {
      BreakEffect(p, s, a);
      hide Break;
    }
  }

  lemma DeletePlants<R>(p: Program<R>, s: Session<R>, id: int)
    requires Inv(p, s) && s.phase == Running && !OnPlanted(p, s) && CanRearm(p, s) && DeleteDefined(s, id)
    ensures Delete(p, s, id).phase == Running
    ensures OnPlanted(p, Delete(p, s, id)) <==>
      HasId(s.bps, id) && Imprint(s.bps[id], s.regs.rip) && Listed(s.bps, s.regs.rip)
  {
    if HasId(s.bps, id) {
      var b, rip, r := s.bps[id], s.regs.rip, Delete(p, s, id);
      assert SavedOk(p, s.bps, id);
      hide ListInv, Image;
      if Listed(s.bps, rip) {
        ListedIsNotInt3(p, s.bps, rip);
      }
      if 0 < rip - b.addr < 8 {
        assert b.addr + (rip - b.addr) - p.base == rip - p.base;
        assert r.mem[rip - p.base] == ByteOf(b.orig, rip - b.addr);
        assert ListedBefore(s.bps, id, b.addr + (rip - b.addr)) ==> Listed(s.bps, rip);
      }
    }
  }

  lemma SiPlants<R(!new)>(p: Program<R>, s: Session<R>, pos: Pos<R>)
    requires ReadsOwnBytes(p) && OnNativeRun(p, s, pos) && s.phase == Running && CanRearm(p, s)
    requires !OnPlanted(p, s)
    ensures Stalled(p, Si(p, s)) <==> Plants(p, s, CSi)
  {
    hide Inv, NoCascade, AllAligned, ReadsOwnBytes, RearmFrom, ScanFrom, Armed, ArmedFrom;
    if FalseHit(p, s) {
      var _ := SiFalseHit(p, s, pos);
    } else {
      SiExact(p, s, pos);
      SiArms(p, s, pos);
      if NativeStep(p, s.regs).Next? {
        var next := NativeStep(p, s.regs).regs;
        ArmedByte(p, s, Si(p, s).mem, next.rip);
      }
    }
  }

  /** At the program's own int3 no entry is taken for a hit, and the text is as it was re-armed. */
  lemma OwnTrapShown<R>(p: Program<R>, s: Session<R>, stop: Stop<R>)
    requires Inv(p, s) && s.phase == Running && CanRearm(p, s)
    requires stop.AtTrap? && OwnTrap(p, stop.regs)
    ensures Stalled(p, ChkStat(p, RearmFrom(p, s, 0), stop)) <==> Armed(p, s, stop.regs.rip)
  {
    hide RearmFrom, ScanFrom, Armed, ArmedFrom, Image;
    RearmKeeps(p, s, 0);
    var armed := RearmFrom(p, s, 0);
    OwnTrapNotListed(p, s.bps, stop.regs);
    ArmedByte(p, s, armed.mem, stop.regs.rip);
    hide ListInv;
    ScanExact(p, armed.(regs := stop.regs), 0);
  }

  lemma ContPlants<R(!new)>(p: Program<R>, s: Session<R>, pos: Pos<R>, n: nat)
    requires ReadsOwnBytes(p) && OnNativeRun(p, s, pos) && s.phase == Running
    requires CanRearm(p, s) && ContReturns(p, s, n)
    ensures Stalled(p, Cont(p, s, n)) <==> LandsArmed(p, s, ContStop(p, s, n))
  {
    hide Inv, NoCascade, ReadsOwnBytes, RearmFrom, ScanFrom, RunToStop, Armed, AllAligned, Native, CanRearm;
    var stop := ContStop(p, s, n);
    if stop.AtTrap? && OwnTrap(p, stop.regs) {
      OwnTrapShown(p, s, stop);
    } else if stop.AtTrap? {
      ProgressAfterHit(p, s, pos, n);
    }
  }

  /** The commands that let no process run. */
  lemma QuietPlants<R>(p: Program<R>, s: Session<R>, c: Cmd<R>)
    requires Inv(p, s) && !Stalled(p, s) && CanRearm(p, s) && Returns(p, s, c)
    requires !c.CCont? && !c.CSi? && !c.CRun? && (c.CLoad? ==> Disciplined(s, c))
    ensures |Exec(p, s, c).mem| == |p.text| && (Stalled(p, Exec(p, s, c)) <==> Plants(p, s, c))
  {
    hide ListInv, Image, Poke, Peek;
    match c
    case CBreak(a) => if s.phase == Running { BreakPlants(p, s, a); }
    case CDelete(id) => if s.phase == Running { DeletePlants(p, s, id); }
    case _ =>
  }

  lemma RunPlants<R(!new)>(p: Program<R>, s: Session<R>, pos: Pos<R>, c: Cmd<R>)
    requires ReadsOwnBytes(p) && OnNativeRun(p, s, pos) && !Stalled(p, s) && c.CRun?
    requires CanRearm(p, s) && Returns(p, s, c) && Faithful(p, s, pos, c)
    ensures Stalled(p, Exec(p, s, c)) <==> Plants(p, s, c)
  {
    hide ReadsOwnBytes, NoCascade, AllAligned, LandsArmed, RearmFrom, ScanFrom, RunToStop;
    if s.phase != NonLoad {
      StartFollows(p, s, pos, c.pid);
      ContPlants(p, RunFrom(p, s, c.pid), Base(p, s, pos, c), c.n);
    }
  }

  /** Away from a planted byte, a command leads onto one exactly if it is one of those. */
  lemma PlantsExact<R(!new)>(p: Program<R>, s: Session<R>, pos: Pos<R>, c: Cmd<R>)
    requires ReadsOwnBytes(p) && OnNativeRun(p, s, pos) && !Stalled(p, s)
    requires CanRearm(p, s) && Returns(p, s, c) && Faithful(p, s, pos, c)
    ensures CanRearm(p, Exec(p, s, c)) && (Stalled(p, Exec(p, s, c)) <==> Plants(p, s, c))
  {
    CommandFollows(p, s, pos, c);
    InvCanRearm(p, Exec(p, s, c));
    hide ReadsOwnBytes, RearmFrom, ScanFrom, AllAligned, NoCascade, Inv, LandsArmed, StepsOnto, CanRearm, RunToStop;
    if c.CCont? && s.phase == Running {
      ContPlants(p, s, pos, c.n);
    } else if c.CSi? && s.phase == Running {
      SiPlants(p, s, pos);
    } else if c.CRun? {
      RunPlants(p, s, pos, c);
    } else if !c.CCont? && !c.CSi? {
      QuietPlants(p, s, c);
    }
  }

  /** A resume completes nothing exactly if the session was stalled, and then it no longer is. */
  lemma ResumeExact<R(!new)>(p: Program<R>, s: Session<R>, pos: Pos<R>, c: Cmd<R>)
    requires ReadsOwnBytes(p) && OnNativeRun(p, s, pos)
    requires CanRearm(p, s) && Returns(p, s, c) && Resumes(s, c) && Faithful(p, s, pos, c)
    ensures Completed(p, s, c) == [] <==> Stalled(p, s)
    ensures CanRearm(p, Exec(p, s, c))
    ensures Stalled(p, s) ==> !Stalled(p, Exec(p, s, c))
  {
    hide ReadsOwnBytes, RearmFrom, ScanFrom, Aligned, AllAligned, NoCascade, RunToStop;
    match c
    case CCont(n) => StutterExact(p, s, pos, n);
    case CSi =>
      SiCompletes(p, s, pos);
      if OnPlanted(p, s) {
        SiStutters(p, s, pos);
      }
    case CRun(pid, n) =>
      StartFollows(p, s, pos, pid);
      StutterExact(p, RunFrom(p, s, pid), Base(p, s, pos, c), n);
    case _ =>
  }

  // ----- whole runs -----

  /** Resumes that complete no instruction. */
  ghost function Stutters<R>(p: Program<R>, s: Session<R>, cs: seq<Cmd<R>>): nat
    requires ReturnsRun(p, s, cs)
    decreases |cs|
  {
    if cs == [] then 0
    else Count(Resumes(s, cs[0]) && Completed(p, s, cs[0]) == []) + Stutters(p, Exec(p, s, cs[0]), cs[1..])
  }

  /** Commands that put a planted byte under rip. */
  ghost function Plantings<R>(p: Program<R>, s: Session<R>, cs: seq<Cmd<R>>): nat
    requires ReturnsRun(p, s, cs)
    decreases |cs|
  {
    if cs == [] then 0
    else Count(!Stalled(p, s) && Plants(p, s, cs[0])) + Plantings(p, Exec(p, s, cs[0]), cs[1..])
  }

  /** What one command does to the count. */
  lemma OneCommand<R(!new)>(p: Program<R>, s: Session<R>, pos: Pos<R>, c: Cmd<R>)
    requires ReadsOwnBytes(p) && OnNativeRun(p, s, pos)
    requires CanRearm(p, s) && Returns(p, s, c) && Faithful(p, s, pos, c)
    ensures CanRearm(p, Exec(p, s, c))
    ensures Count(Resumes(s, c) && Completed(p, s, c) == []) + Count(Stalled(p, Exec(p, s, c))) <=
      Count(!Stalled(p, s) && Plants(p, s, c)) + Count(Stalled(p, s))
  {
    hide ReadsOwnBytes, OnNativeRun, Faithful, Exec, Plants, Stalled, Completed;
    CommandFollows(p, s, pos, c);
    assert CanRearm(p, Exec(p, s, c)) by { StillRearms(p, Exec(p, s, c), Advance(p, s, pos, c)); }
    if Resumes(s, c) {
      ResumeExact(p, s, pos, c);
    }
    if !Stalled(p, s) {
      PlantsExact(p, s, pos, c);
    }
  }

  lemma StillRearms<R(!new)>(p: Program<R>, s: Session<R>, pos: Pos<R>)
    requires OnNativeRun(p, s, pos)
    ensures CanRearm(p, s)
  {
    InvCanRearm(p, s);
  }

  /** Bounded stuttering over every faithful run: a resume completes nothing at most once for
      each command that put a planted byte under rip, and once more if one was there at first. */
  lemma {:induction false} StuttersAreBounded<R(!new)>(p: Program<R>, s: Session<R>, pos: Pos<R>, cs: seq<Cmd<R>>)
    requires ReadsOwnBytes(p) && OnNativeRun(p, s, pos)
    requires ReturnsRun(p, s, cs) && FaithfulRun(p, s, pos, cs)
    ensures |s.mem| == |p.text| == |Final(p, s, cs).mem|
    ensures Stutters(p, s, cs) + Count(Stalled(p, Final(p, s, cs))) <= Plantings(p, s, cs) + Count(Stalled(p, s))
    decreases |cs|
  {
    if cs != [] {
      hide ReadsOwnBytes, Faithful, Exec, Plants, Stalled, Completed, Resumes;
      OneCommand(p, s, pos, cs[0]);
      CommandFollows(p, s, pos, cs[0]);
      StuttersAreBounded(p, Exec(p, s, cs[0]), Advance(p, s, pos, cs[0]), cs[1..]);
    }
  }

  /** From a prompt with no planted byte under rip, as after every stop at a breakpoint: as long
      as no command puts one there, every resume among the faithful commands that follow
      completes at least one native instruction. */
  lemma ProgressUntilPlanted<R(!new)>(p: Program<R>, s: Session<R>, pos: Pos<R>, cs: seq<Cmd<R>>)
    requires ReadsOwnBytes(p) && OnNativeRun(p, s, pos) && !Stalled(p, s)
    requires ReturnsRun(p, s, cs) && FaithfulRun(p, s, pos, cs) && Plantings(p, s, cs) == 0
    ensures Stutters(p, s, cs) == 0
    ensures |Final(p, s, cs).mem| == |p.text| && !Stalled(p, Final(p, s, cs))
  {
    hide ReadsOwnBytes, Plantings, Stutters, OnNativeRun, FaithfulRun;
    StuttersAreBounded(p, s, pos, cs);
  }
}
