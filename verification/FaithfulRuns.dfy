/** Transparency of whole debugging sessions. */
module FaithfulRuns {
  import opened Tracee
  import opened Sessions
  import opened ImageInvariant
  import opened Runs
  import opened Transparency

  /** What a user must avoid for the debugger to stay invisible: breakpoints inside instructions of
      the native run, a breakpoint one below an earlier-listed one, and a single step that lands
      one byte past a breakpoint. Of the first, a user can check that a breakpoint is at the
      start of an instruction; in code whose instructions do not overlap that is enough. */
  ghost predicate Faithful<R(!new)>(p: Program<R>, s: Session<R>, pos: Pos<R>, c: Cmd<R>)
    requires CanRearm(p, s) && Returns(p, s, c)
  {
    Disciplined(s, c) &&
    match c
    case CBreak(a) => s.phase == Running && a != 0 ==>
      Aligned(p, pos.o, a) && NoCascade(Break(p, s, a).bps)
    case CSi => s.phase == Running && !OnPlanted(p, s) ==> !FalseHit(p, s)
    case CSet(regs) => s.phase == Running ==> AllAligned(p, regs, Sites(s.bps))
    case CStart(_) => s.phase == Loaded ==> AllAligned(p, p.entry, Sites(s.bps))
    case CRun(_, _) => s.phase == Loaded ==> AllAligned(p, p.entry, Sites(s.bps))
    case _ => true
  }

  /** Commands that let the process run. */
  predicate Resumes<R>(s: Session<R>, c: Cmd<R>) {
    (s.phase == Running && (c.CCont? || c.CSi?)) || (s.phase != NonLoad && c.CRun?)
  }

  /** The command starts the process afresh or gives it new registers: a new native run. */
  predicate Rebases<R>(s: Session<R>, c: Cmd<R>) {
    (s.phase == Running && c.CSet?) || (s.phase == Loaded && (c.CStart? || c.CRun?))
  }

  /** Where the native run stands as the command resumes the process. */
  function Base<R>(p: Program<R>, s: Session<R>, pos: Pos<R>, c: Cmd<R>): Pos<R> {
    if !Rebases(s, c) then pos else if c.CSet? then Pos(c.regs, 0) else Pos(p.entry, 0)
  }

  /** After a single step the trap itself says nothing: the step is complete if it was made. */
  function StepPath<R>(p: Program<R>, stop: Stop<R>): seq<Regs<R>> {
    if !stop.Busy? && stop.path != [] then stop.path else StopPath(p, stop)
  }

  /** The states whose instructions the process completes during the command. */
  ghost function Completed<R>(p: Program<R>, s: Session<R>, c: Cmd<R>): seq<Regs<R>>
    requires CanRearm(p, s)
  {
    if !Resumes(s, c) then []
    else match c
      case CSi => StepPath(p, SingleStep(p, RearmFrom(p, s, 0).mem, s.regs))
      case CRun(pid, n) => StopPath(p, ContStop(p, RunFrom(p, s, pid), n))
      case CCont(n) => StopPath(p, ContStop(p, s, n))
      case _ => []
  }

  /** Where the command leaves the session on the native run. */
  ghost function Advance<R>(p: Program<R>, s: Session<R>, pos: Pos<R>, c: Cmd<R>): Pos<R>
    requires CanRearm(p, s)
  {
    var from := Base(p, s, pos, c);
    Pos(from.o, from.k + |Completed(p, s, c)|)
  }

  lemma BreakFollows<R(!new)>(p: Program<R>, s: Session<R>, pos: Pos<R>, a: int)
    requires OnNativeRun(p, s, pos) && BreakReturns(p, s, a)
    requires s.phase == Running && a != 0 ==> Aligned(p, pos.o, a) && NoCascade(Break(p, s, a).bps)
    ensures OnNativeRun(p, Break(p, s, a), pos)
  {
    BreakKeeps(p, s, a);
    if s.phase == Running && a != 0 {
      BreakEffect(p, s, a);
      var r := Break(p, s, a);
      forall b | b in Sites(r.bps) ensures Aligned(p, pos.o, b) {
        var i :| 0 <= i < |r.bps| && r.bps[i].addr == b;
        if i < |s.bps| {
          assert s.bps[i].addr == b;
        }
      }
    }
  }

  lemma DeleteFollows<R(!new)>(p: Program<R>, s: Session<R>, pos: Pos<R>, id: int)
    requires OnNativeRun(p, s, pos) && CanRearm(p, s) && DeleteDefined(s, id)
    requires s.phase == Running && HasId(s.bps, id) ==> !Imprinted(s.bps, id)
    ensures OnNativeRun(p, Delete(p, s, id), pos)
  {
    if s.phase == Running && HasId(s.bps, id) {
      DeleteExact(p, s, id);
      var r := Delete(p, s, id);
      assert r.bps == Without(s.bps, id);
      forall b | b in Sites(r.bps) ensures b in Sites(s.bps) {
        var i :| 0 <= i < |r.bps| && r.bps[i].addr == b;
        assert s.bps[if i < id then i else i + 1].addr == b;
      }
    }
  }

  lemma SiFollows<R(!new)>(p: Program<R>, s: Session<R>, pos: Pos<R>)
    requires ReadsOwnBytes(p) && OnNativeRun(p, s, pos) && CanRearm(p, s)
    requires s.phase == Running && !OnPlanted(p, s) ==> !FalseHit(p, s)
    ensures OnNativeRun(p, Si(p, s), Advance(p, s, pos, CSi))
    ensures IsNativePath(p, pos.o, pos.k, Completed(p, s, CSi))
    ensures s.phase == Running && Si(p, s).phase != Running ==>
      Native(p, pos.o, Advance(p, s, pos, CSi).k) == Exit
  {
    hide Inv, NoCascade, AllAligned, ReadsOwnBytes, RearmFrom, ScanFrom, IsNativePath;
    if s.phase == Running {
      SiCompletes(p, s, pos);
      if OnPlanted(p, s) {
        SiStutters(p, s, pos);
      } else {
        SiExact(p, s, pos);
      }
    } else {
      assert Completed(p, s, CSi) == [];
      NothingCompleted(p, pos);
    }
  }

  lemma NothingCompleted<R>(p: Program<R>, pos: Pos<R>)
    ensures IsNativePath(p, pos.o, pos.k, [])
  {
  }

  /** A single step completes the instruction under rip, unless a planted 0xcc is there. */
  lemma SiCompletes<R(!new)>(p: Program<R>, s: Session<R>, pos: Pos<R>)
    requires ReadsOwnBytes(p) && OnNativeRun(p, s, pos) && s.phase == Running && CanRearm(p, s)
    ensures Completed(p, s, CSi) == if OnPlanted(p, s) then [] else [s.regs]
    ensures IsNativePath(p, pos.o, pos.k, Completed(p, s, CSi))
  {
    hide Inv, NoCascade, AllAligned, ReadsOwnBytes, RearmFrom, StopsLikeNative, CanRearm, Native, PatchedAt;
    var armed := ArmedStop(p, s, pos, 1);
    assert s.regs.(rip := s.regs.rip + 1).(rip := s.regs.rip) == s.regs;
  }

  lemma StartFollows<R(!new)>(p: Program<R>, s: Session<R>, pos: Pos<R>, pid: Pid)
    requires OnNativeRun(p, s, pos)
    requires s.phase == Loaded ==> AllAligned(p, p.entry, Sites(s.bps))
    ensures OnNativeRun(p, Start(p, s, pid), if s.phase == Loaded then Pos(p.entry, 0) else pos)
    ensures s.phase == Loaded ==> Start(p, s, pid).phase == Running
  {
    StartKeeps(p, s, pid);
  }

  lemma SetFollows<R(!new)>(p: Program<R>, s: Session<R>, pos: Pos<R>, regs: Regs<R>)
    requires OnNativeRun(p, s, pos)
    requires s.phase == Running ==> AllAligned(p, regs, Sites(s.bps))
    ensures OnNativeRun(p, SetRegs(s, regs), if s.phase == Running then Pos(regs, 0) else pos)
  {
  }

  lemma LoadFollows<R(!new)>(p: Program<R>, s: Session<R>, pos: Pos<R>, elf64: bool)
    requires OnNativeRun(p, s, pos) && (elf64 ==> s.phase != Running)
    ensures OnNativeRun(p, LoadFile(s, elf64), pos)
  {
    LoadExact(p, s, elf64);
  }

  /** Every faithful command keeps the prompt on the native run: it completes exactly the native
      instructions from the current position on, the state shown is the native state at the
      advanced position, and a process that is gone has exited natively. */
  lemma CommandFollows<R(!new)>(p: Program<R>, s: Session<R>, pos: Pos<R>, c: Cmd<R>)
    requires ReadsOwnBytes(p) && OnNativeRun(p, s, pos)
    requires CanRearm(p, s) && Returns(p, s, c) && Faithful(p, s, pos, c)
    ensures IsNativePath(p, Base(p, s, pos, c).o, Base(p, s, pos, c).k, Completed(p, s, c))
    ensures var r := Exec(p, s, c); var pos' := Advance(p, s, pos, c);
      && OnNativeRun(p, r, pos')
      && (Resumes(s, c) && r.phase != Running ==> Native(p, pos'.o, pos'.k) == Exit)
  {
    hide OnNativeRun, Aligned, AllAligned, NoCascade, Native, ReadsOwnBytes, IsNativePath, RearmFrom, ScanFrom;
    if !Resumes(s, c) {
      NothingCompleted(p, Base(p, s, pos, c));
    }
    match c
    case CBreak(a) => BreakFollows(p, s, pos, a);
    case CCont(n) => if s.phase == Running { ContFollows(p, s, pos, n); }
    case CSi => SiFollows(p, s, pos);
    case CDelete(id) => DeleteFollows(p, s, pos, id);
    case CStart(pid) => StartFollows(p, s, pos, pid);
    case CRun(pid, n) =>
      if s.phase != NonLoad {
        StartFollows(p, s, pos, pid);
        ContFollows(p, RunFrom(p, s, pid), Base(p, s, pos, c), n);
      }
    case CSet(regs) => SetFollows(p, s, pos, regs);
    case CLoad(elf64) => LoadFollows(p, s, pos, elf64);
  }

  ghost predicate FaithfulRun<R(!new)>(p: Program<R>, s: Session<R>, pos: Pos<R>, cs: seq<Cmd<R>>)
    requires ReturnsRun(p, s, cs)
    decreases |cs|
  {
    cs == [] ||
    (Faithful(p, s, pos, cs[0]) &&
     FaithfulRun(p, Exec(p, s, cs[0]), Advance(p, s, pos, cs[0]), cs[1..]))
  }

  ghost function FinalPos<R>(p: Program<R>, s: Session<R>, pos: Pos<R>, cs: seq<Cmd<R>>): Pos<R>
    requires ReturnsRun(p, s, cs)
    decreases |cs|
  {
    if cs == [] then pos
    else FinalPos(p, Exec(p, s, cs[0]), Advance(p, s, pos, cs[0]), cs[1..])
  }

  /** Everything the process has completed since it was last started or given new registers,
      command after command, if that was t before the commands. */
  ghost function History<R>(p: Program<R>, s: Session<R>, t: seq<Regs<R>>, cs: seq<Cmd<R>>): seq<Regs<R>>
    requires ReturnsRun(p, s, cs)
    decreases |cs|
  {
    if cs == [] then t
    else
      var before := if Rebases(s, cs[0]) then [] else t;
      History(p, Exec(p, s, cs[0]), before + Completed(p, s, cs[0]), cs[1..])
  }

  /** t is the native run from its first state up to position pos. */
  ghost predicate IsHistory<R>(p: Program<R>, pos: Pos<R>, t: seq<Regs<R>>) {
    |t| == pos.k && IsNativePath(p, pos.o, 0, t)
  }

  /** Transparency: after any faithful sequence of commands, whatever stops, restarts, deletes
      and single steps it holds, the prompt shows a state of the native run; and what the
      process has completed over all those commands is the native run up to that state, with
      no step skipped, repeated or altered. */
  lemma {:induction false} TransparentRun<R(!new)>(
    p: Program<R>, s: Session<R>, pos: Pos<R>, t: seq<Regs<R>>, cs: seq<Cmd<R>>)
    requires ReadsOwnBytes(p) && OnNativeRun(p, s, pos) && IsHistory(p, pos, t)
    requires ReturnsRun(p, s, cs) && FaithfulRun(p, s, pos, cs)
    ensures OnNativeRun(p, Final(p, s, cs), FinalPos(p, s, pos, cs))
    ensures IsHistory(p, FinalPos(p, s, pos, cs), History(p, s, t, cs))
    decreases |cs|
  {
    if cs != [] {
      var c := cs[0];
      CommandFollows(p, s, pos, c);
      var before := if Rebases(s, c) then [] else t;
      hide OnNativeRun, ReadsOwnBytes, IsNativePath, Faithful, Completed, Exec;
      assert IsNativePath(p, Base(p, s, pos, c).o, 0, before) by { NothingCompleted(p, Base(p, s, pos, c)); }
      PathJoins(p, Base(p, s, pos, c).o, before, Completed(p, s, c));
      TransparentRun(p, Exec(p, s, c), Advance(p, s, pos, c), before + Completed(p, s, c), cs[1..]);
    }
  }

  /** No command of the sequence starts the process afresh or gives it new registers. */
  ghost predicate KeepsBase<R>(p: Program<R>, s: Session<R>, cs: seq<Cmd<R>>)
    requires ReturnsRun(p, s, cs)
    decreases |cs|
  {
    cs == [] || (!Rebases(s, cs[0]) && KeepsBase(p, Exec(p, s, cs[0]), cs[1..]))
  }

  /** In order: from one prompt to any later one of the same native run, the position does not
      fall, and what is complete by then continues what was complete before. */
  lemma {:induction false} PromptsAscend<R>(
    p: Program<R>, s: Session<R>, pos: Pos<R>, t: seq<Regs<R>>, cs: seq<Cmd<R>>)
    requires ReturnsRun(p, s, cs) && KeepsBase(p, s, cs)
    ensures FinalPos(p, s, pos, cs).o == pos.o && FinalPos(p, s, pos, cs).k >= pos.k
    ensures t <= History(p, s, t, cs)
    ensures |History(p, s, t, cs)| - |t| == FinalPos(p, s, pos, cs).k - pos.k
    decreases |cs|
  {
    if cs != [] {
      hide Completed, Exec;
      PromptsAscend(p, Exec(p, s, cs[0]), Advance(p, s, pos, cs[0]), t + Completed(p, s, cs[0]), cs[1..]);
    }
  }

  /** The theorem from the first prompt on. */
  lemma TransparentFromStart<R(!new)>(p: Program<R>, cs: seq<Cmd<R>>)
    requires ReadsOwnBytes(p)
    requires ReturnsRun(p, Fresh(p), cs) && FaithfulRun(p, Fresh(p), Pos(p.entry, 0), cs)
    ensures var s := Final(p, Fresh(p), cs); var pos := FinalPos(p, Fresh(p), Pos(p.entry, 0), cs);
      s.phase == Running ==> Native(p, pos.o, pos.k) == Next(s.regs)
    ensures IsHistory(p, FinalPos(p, Fresh(p), Pos(p.entry, 0), cs), History(p, Fresh(p), [], cs))
  {
    TransparentRun(p, Fresh(p), Pos(p.entry, 0), [], cs);
  }
}
