/** Whole debugging sessions: the invariant over every run, teardown, and the wedged session. */
module Runs {
  import opened Tracee
  import opened Sessions
  import opened ImageInvariant

  type Pid = n: int | n > 0 witness 1

  /** One line at the prompt. fork supplies the pid; n says how long waitpid may block. */
  datatype Cmd<R> =
    | CBreak(addr: int)
    | CCont(n: nat)
    | CSi
    | CDelete(id: int)
    | CStart(pid: Pid)
    | CRun(pid: Pid, n: nat)
    | CSet(regs: Regs<R>)
    | CLoad(elf64: bool)

  /** run is cont while RUNNING, start then cont while LOADED, and otherwise a message. */
  function RunFrom<R>(p: Program<R>, s: Session<R>, pid: Pid): (r: Session<R>)
    ensures |s.mem| == |p.text| ==> |r.mem| == |p.text|
    ensures r.bps == s.bps
  {
    if s.phase == Loaded then Start(p, s, pid) else s
  }

  /** The command comes back to the prompt. */
  ghost predicate Returns<R>(p: Program<R>, s: Session<R>, c: Cmd<R>)
    requires CanRearm(p, s)
  {
    match c
    case CBreak(a) => BreakReturns(p, s, a)
    case CCont(n) => ContReturns(p, s, n)
    case CRun(pid, n) => s.phase != NonLoad ==> ContReturns(p, RunFrom(p, s, pid), n)
    case CDelete(id) => DeleteDefined(s, id)
    case _ => true
  }

  ghost function Exec<R>(p: Program<R>, s: Session<R>, c: Cmd<R>): Session<R>
    requires CanRearm(p, s) && Returns(p, s, c)
  {
    match c
    case CBreak(a) => Break(p, s, a)
    case CCont(n) => Cont(p, s, n)
    case CSi => Si(p, s)
    case CDelete(id) => Delete(p, s, id)
    case CStart(pid) => Start(p, s, pid)
    case CRun(pid, n) => if s.phase == NonLoad then s else Cont(p, RunFrom(p, s, pid), n)
    case CSet(regs) => SetRegs(s, regs)
    case CLoad(elf64) => LoadFile(s, elf64)
  }

  /** A debugger that has just been started: nothing loaded, nothing listed. */
  function Fresh<R>(p: Program<R>): Session<R> {
    Session(NonLoad, 0, [], p.text, p.entry)
  }

  /** No delete of an entry whose 0xcc a word saved later still holds, and no load over a
      running program. */
  ghost predicate Disciplined<R>(s: Session<R>, c: Cmd<R>) {
    && (c.CDelete? && s.phase == Running && HasId(s.bps, c.id) ==> !Imprinted(s.bps, c.id))
    && (c.CLoad? && c.elf64 ==> s.phase != Running)
  }

  /** Deletes are last-in-first-out. */
  predicate Lifo<R>(s: Session<R>, c: Cmd<R>) {
    c.CDelete? && s.phase == Running ==> LastOrNone(s, c.id)
  }

  /** Every command of the sequence comes back to the prompt. */
  ghost predicate ReturnsRun<R>(p: Program<R>, s: Session<R>, cs: seq<Cmd<R>>)
    decreases |cs|
  {
    cs == [] ||
    (CanRearm(p, s) && Returns(p, s, cs[0]) && ReturnsRun(p, Exec(p, s, cs[0]), cs[1..]))
  }

  ghost function Final<R>(p: Program<R>, s: Session<R>, cs: seq<Cmd<R>>): Session<R>
    requires ReturnsRun(p, s, cs)
    decreases |cs|
  {
    if cs == [] then s else Final(p, Exec(p, s, cs[0]), cs[1..])
  }

  ghost predicate DisciplinedRun<R>(p: Program<R>, s: Session<R>, cs: seq<Cmd<R>>)
    requires ReturnsRun(p, s, cs)
    decreases |cs|
  {
    cs == [] || (Disciplined(s, cs[0]) && DisciplinedRun(p, Exec(p, s, cs[0]), cs[1..]))
  }

  /** Last-in-first-out deletes, and no load over a running program. */
  ghost predicate LifoRun<R>(p: Program<R>, s: Session<R>, cs: seq<Cmd<R>>)
    requires ReturnsRun(p, s, cs)
    decreases |cs|
  {
    cs == [] ||
    (Lifo(s, cs[0]) && (cs[0].CLoad? && cs[0].elf64 ==> s.phase != Running) &&
     LifoRun(p, Exec(p, s, cs[0]), cs[1..]))
  }

  // ----- the invariant over every run -----

  /** load keeps the invariant exactly when it does not replace a running program. */
  lemma LoadExact<R>(p: Program<R>, s: Session<R>, elf64: bool)
    requires Inv(p, s)
    ensures Inv(p, LoadFile(s, elf64)) <==> !(s.phase == Running && elf64)
  {
  }

  lemma StartKeeps<R>(p: Program<R>, s: Session<R>, pid: Pid)
    requires Inv(p, s)
    ensures Inv(p, Start(p, s, pid))
  {
  }

  /** A command keeps the invariant exactly when it is disciplined. */
  lemma ExecExact<R>(p: Program<R>, s: Session<R>, c: Cmd<R>)
    requires Inv(p, s) && CanRearm(p, s) && Returns(p, s, c)
    ensures Inv(p, Exec(p, s, c)) <==> Disciplined(s, c)
  {
    match c
    case CBreak(a) => BreakKeeps(p, s, a);
    case CCont(n) => ContKeeps(p, s, n);
    case CSi => SiKeeps(p, s);
    case CDelete(id) => if s.phase == Running { DeleteExact(p, s, id); }
    case CStart(pid) => StartKeeps(p, s, pid);
    case CRun(pid, n) =>
      if s.phase != NonLoad {
        StartKeeps(p, s, pid);
        ContKeeps(p, RunFrom(p, s, pid), n);
      }
    case CSet(_) =>
    case CLoad(elf64) => LoadExact(p, s, elf64);
  }

  lemma {:induction false} InvariantOverRun<R>(p: Program<R>, s: Session<R>, cs: seq<Cmd<R>>)
    requires Inv(p, s) && ReturnsRun(p, s, cs) && DisciplinedRun(p, s, cs)
    ensures Inv(p, Final(p, s, cs))
    decreases |cs|
  {
    if cs != [] {
      ExecExact(p, s, cs[0]);
      InvariantOverRun(p, Exec(p, s, cs[0]), cs[1..]);
    }
  }

  // ----- ids -----

  lemma ResumeSameList<R>(p: Program<R>, s: Session<R>, stop: Stop<R>)
    requires CanRearm(p, s)
    ensures ChkStat(p, RearmFrom(p, s, 0), stop).bps == s.bps
  {
  }

  /** As long as every id is an index, a command keeps it so exactly when its delete, if it is
      one, is last-in-first-out. */
  lemma NumbersExact<R>(p: Program<R>, s: Session<R>, c: Cmd<R>)
    requires CanRearm(p, s) && Returns(p, s, c) && Numbered(s.bps)
    ensures Numbered(Exec(p, s, c).bps) <==> Lifo(s, c)
  {
    hide Numbered;
    match c
    case CBreak(a) => BreakNumbers(p, s, a);
    case CCont(n) => if s.phase == Running { ResumeSameList(p, s, ContStop(p, s, n)); }
    case CSi => if s.phase == Running { ResumeSameList(p, s, SingleStep(p, RearmFrom(p, s, 0).mem, s.regs)); }
    case CDelete(id) => if s.phase == Running { DeleteNumbers(p, s, id); }
    case CStart(_) =>
    case CRun(pid, n) =>
      if s.phase != NonLoad && RunFrom(p, s, pid).phase == Running {
        ResumeSameList(p, RunFrom(p, s, pid), ContStop(p, RunFrom(p, s, pid), n));
      }
    case CSet(_) =>
    case CLoad(_) =>
  }

  lemma BreakNumbers<R>(p: Program<R>, s: Session<R>, a: int)
    requires |s.mem| == |p.text| && BreakReturns(p, s, a) && Numbered(s.bps)
    ensures Numbered(Break(p, s, a).bps)
  {
  }

  /** Over every such run ids are indexes, and every delete is disciplined. */
  lemma {:induction false} LifoOverRun<R>(p: Program<R>, s: Session<R>, cs: seq<Cmd<R>>)
    requires Inv(p, s) && Numbered(s.bps) && ReturnsRun(p, s, cs) && LifoRun(p, s, cs)
    ensures DisciplinedRun(p, s, cs) && Numbered(Final(p, s, cs).bps) && Inv(p, Final(p, s, cs))
    decreases |cs|
  {
    if cs != [] {
      var c := cs[0];
      if c.CDelete? && s.phase == Running {
        DeleteNumbers(p, s, c.id);
      }
      ExecExact(p, s, c);
      NumbersExact(p, s, c);
      LifoOverRun(p, Exec(p, s, c), cs[1..]);
    }
  }

  // ----- teardown -----

  function DeleteAll<R>(n: nat): seq<Cmd<R>> {
    if n == 0 then [] else [CDelete(n - 1)] + DeleteAll(n - 1)
  }

  /** With nothing listed the text is the original. */
  lemma NothingListed<R>(p: Program<R>, s: Session<R>)
    requires Inv(p, s) && s.phase == Running && s.bps == []
    ensures s.mem == p.text
  {
    assert Sites(s.bps) == {};
  }

  lemma DeleteIsCommand<R>(p: Program<R>, s: Session<R>, id: int)
    requires CanRearm(p, s) && DeleteDefined(s, id)
    ensures Returns(p, s, CDelete(id)) && Exec(p, s, CDelete(id)) == Delete(p, s, id)
  {
  }

  /** Deleting every breakpoint, last first, is always possible and leaves the text of the
      tracee byte for byte the original, with registers and session state as they were. */
  lemma {:induction false} Teardown<R>(p: Program<R>, s: Session<R>)
    requires Inv(p, s) && Numbered(s.bps) && s.phase == Running
    ensures ReturnsRun(p, s, DeleteAll<R>(|s.bps|)) && LifoRun(p, s, DeleteAll<R>(|s.bps|))
    ensures Final(p, s, DeleteAll<R>(|s.bps|)) == s.(bps := [], mem := p.text)
    decreases |s.bps|
  {
    var cs := DeleteAll<R>(|s.bps|);
    hide Image, ListInv, Listed;
    if s.bps == [] {
      NothingListed(p, s);
    } else {
      InvCanRearm(p, s);
      DeleteLast(p, s);
      DeleteIsCommand(p, s, |s.bps| - 1);
      hide Delete, Inv, CanRearm, Numbered, Exec, Returns;
      assert cs[0] == CDelete(|s.bps| - 1) && cs[1..] == DeleteAll<R>(|s.bps| - 1);
      Teardown(p, Delete(p, s, |s.bps| - 1));
    }
  }

  // ----- a load over a running program -----

  /** LOADED with a process still attached: no sequence of commands ever changes anything
      again, so the process can be neither resumed nor replaced. */
  lemma {:induction false} WedgedForever<R>(p: Program<R>, s: Session<R>, cs: seq<Cmd<R>>)
    requires s.phase == Loaded && s.pid != 0 && ReturnsRun(p, s, cs)
    ensures Final(p, s, cs) == s
    decreases |cs|
  {
    if cs != [] {
      assert Exec(p, s, cs[0]) == s;
      WedgedForever(p, s, cs[1..]);
    }
  }
}
