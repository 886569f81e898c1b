/** Where a continue stops, and which commands take a listed address its 0xcc. */
module Arming {
  import opened Words
  import opened Tracee
  import opened Sessions
  import opened ImageInvariant
  import opened Runs
  import opened Transparency

  // ----- where a cont stops -----

  /** A native state a cont from s does not get past: at a listed address that re-arming leaves
      with 0xcc, or at an int3 of the program's own. */
  ghost predicate StopsAt<R>(p: Program<R>, s: Session<R>, regs: Regs<R>)
    requires |s.mem| == |p.text|
  {
    Armed(p, s, regs.rip) || (InText(p, regs.rip) && p.text[regs.rip - p.base] == INT3)
  }

  /** A cont stops exactly at the first native state, from the current one on, that is armed or at
      an int3 of the program's own, or at the exit if there is none: a listed address at or below
      the starting rip whose byte is the original is run through. */
  lemma StopsExactly<R(!new)>(p: Program<R>, s: Session<R>, pos: Pos<R>, n: nat)
    requires ReadsOwnBytes(p) && OnNativeRun(p, s, pos) && s.phase == Running
    requires CanRearm(p, s) && ContReturns(p, s, n)
    ensures var stop := ContStop(p, s, n);
      && !stop.Busy? && IsNativePath(p, pos.o, pos.k, stop.path)
      && (forall i :: 0 <= i < |stop.path| ==> !StopsAt(p, s, stop.path[i]))
      && (stop.AtExit? ==> Native(p, pos.o, pos.k + |stop.path|) == Exit)
      && (stop.AtTrap? ==>
            var at := stop.regs.(rip := stop.regs.rip - 1);
            Native(p, pos.o, pos.k + |stop.path|) == Next(at) && StopsAt(p, s, at))
  {
    hide ReadsOwnBytes, Inv, NoCascade, AllAligned, RearmFrom, RunToStop, Native, CanRearm, PatchedAt, StopsAt;
    var armed := ArmedStop(p, s, pos, n);
    RearmKeeps(p, s, 0);
    hide ArmedFrom;
    var stop := ContStop(p, s, n);
    NeverRunsTrapByte(p, armed.mem, s.regs, n);
    forall i | 0 <= i < |stop.path| ensures !StopsAt(p, s, stop.path[i]) {
      StopByte(p, s, armed.mem, stop.path[i]);
    }
    if stop.AtTrap? {
      StopByte(p, s, armed.mem, stop.regs.(rip := stop.regs.rip - 1));
    }
  }

  lemma StopByte<R>(p: Program<R>, s: Session<R>, mem: Mem, regs: Regs<R>)
    requires Inv(p, s) && s.phase == Running && ArmedFrom(p, s, 0, mem) && PatchedAt(p, mem, Sites(s.bps))
    ensures StopsAt(p, s, regs) <==> InText(p, regs.rip) && mem[regs.rip - p.base] == INT3
  {
    ArmedByte(p, s, mem, regs.rip);
  }

  /** Where a process that has just been started does not get past: the list survives the restart,
      but only above the entry is it armed. */
  ghost predicate StopsAfresh<R>(p: Program<R>, bps: seq<Breakpoint>, regs: Regs<R>) {
    (Listed(bps, regs.rip) && regs.rip > p.entry.rip) ||
    (InText(p, regs.rip) && p.text[regs.rip - p.base] == INT3)
  }

  /** start, whatever was listed, planted or saved before: the new process has the original text, byte
      for byte, and the list is as it was. The first cont, and a run from LOADED, stop exactly at
      the first native state that is listed above the entry or at an int3 of the program's own, or
      at the exit. */
  lemma RestartExact<R(!new)>(p: Program<R>, s: Session<R>, pid: Pid, n: nat)
    requires ReadsOwnBytes(p) && Inv(p, s) && NoCascade(s.bps) && s.phase == Loaded && s.pid == 0
    requires AllAligned(p, p.entry, Sites(s.bps)) && CanRearm(p, s) && Returns(p, s, CRun(pid, n))
    ensures Returns(p, s, CStart(pid))
    ensures var t := Exec(p, s, CStart(pid));
      && t.mem == p.text && t.bps == s.bps && t.phase == Running && t.pid == pid && t.regs == p.entry
      && CanRearm(p, t) && Returns(p, t, CCont(n)) && Exec(p, t, CCont(n)) == Exec(p, s, CRun(pid, n))
      && FirstStop(p, s.bps, ContStop(p, t, n))
  {
    hide ReadsOwnBytes, NoCascade, AllAligned, RearmFrom, RunToStop, Native, ScanFrom, StopsAt, StopsAfresh;
    var t := Start(p, s, pid);
    StartKeeps(p, s, pid);
    InvCanRearm(p, t);
    assert OnNativeRun(p, t, Pos(p.entry, 0)) by { AtEntry(p, t); }
    StopsExactly(p, t, Pos(p.entry, 0), n);
    var stop := ContStop(p, t, n);
    forall i | 0 <= i < |stop.path| ensures !StopsAfresh(p, s.bps, stop.path[i]) {
      FreshByte(p, t, stop.path[i]);
    }
    if stop.AtTrap? {
      FreshByte(p, t, stop.regs.(rip := stop.regs.rip - 1));
    }
  }

  ghost predicate FirstStop<R>(p: Program<R>, bps: seq<Breakpoint>, stop: Stop<R>) {
    && !stop.Busy? && IsNativePath(p, p.entry, 0, stop.path)
    && (forall i :: 0 <= i < |stop.path| ==> !StopsAfresh(p, bps, stop.path[i]))
    && (stop.AtExit? ==> Native(p, p.entry, |stop.path|) == Exit)
    && (stop.AtTrap? ==>
          var at := stop.regs.(rip := stop.regs.rip - 1);
          Native(p, p.entry, |stop.path|) == Next(at) && StopsAfresh(p, bps, at))
  }

  lemma AtEntry<R(!new)>(p: Program<R>, t: Session<R>)
    requires Inv(p, t) && NoCascade(t.bps) && t.regs == p.entry && AllAligned(p, p.entry, Sites(t.bps))
    ensures OnNativeRun(p, t, Pos(p.entry, 0))
  {
  }

  lemma FreshByte<R>(p: Program<R>, t: Session<R>, regs: Regs<R>)
    requires Inv(p, t) && t.mem == p.text && t.regs == p.entry
    ensures StopsAt(p, t, regs) <==> StopsAfresh(p, t.bps, regs)
  {
    if Listed(t.bps, regs.rip) {
      ListedIsNotInt3(p, t.bps, regs.rip);
    }
  }

  // ----- which bytes a command leaves armed -----

  predicate Holds<R>(p: Program<R>, s: Session<R>, a: int)
    requires |s.mem| == |p.text|
  {
    InText(p, a) && s.mem[a - p.base] == INT3
  }

  predicate InWord(b: Breakpoint, a: int) {
    0 <= a - b.addr < 8
  }

  /** The command writes back the word that b saved: b is erased, or hit. */
  ghost predicate WritesBack<R>(p: Program<R>, s: Session<R>, c: Cmd<R>, b: Breakpoint)
    requires CanRearm(p, s) && Returns(p, s, c) && s.phase == Running
  {
    match c
    case CDelete(id) => HasId(s.bps, id) && b == s.bps[id]
    case CCont(n) => Hits(s.bps, ContStop(p, s, n), b)
    case CRun(_, n) => Hits(s.bps, ContStop(p, s, n), b)
    case CSi => Hits(s.bps, SingleStep(p, RearmFrom(p, s, 0).mem, s.regs), b)
    case _ => false
  }

  ghost predicate Hits<R>(bps: seq<Breakpoint>, stop: Stop<R>, b: Breakpoint) {
    stop.AtTrap? && b in bps && b.addr == stop.regs.rip - 1
  }

  predicate Resuming<R>(c: Cmd<R>) {
    c.CCont? || c.CSi? || c.CRun?
  }

  /** The byte at a after the command: if the command writes a word back over it, what that word
      saved there; otherwise 0xcc if it was there, if a break asks for it, or if a resume from
      below re-arms it. */
  ghost predicate HeldAfter<R>(p: Program<R>, s: Session<R>, c: Cmd<R>, a: int, held: bool)
    requires CanRearm(p, s) && Returns(p, s, c) && s.phase == Running
  {
    && (forall b :: WritesBack(p, s, c, b) && InWord(b, a) ==> held == (ByteOf(b.orig, a - b.addr) == INT3))
    && ((forall b :: WritesBack(p, s, c, b) ==> !InWord(b, a)) ==>
          held == (Holds(p, s, a) || c == CBreak(a) || (Resuming(c) && a > s.regs.rip)))
  }

  lemma RearmedHolds<R>(p: Program<R>, s: Session<R>, a: int)
    requires Inv(p, s) && s.phase == Running && CanRearm(p, s) && Listed(s.bps, a)
    ensures Inv(p, RearmFrom(p, s, 0)) && RearmFrom(p, s, 0) == s.(mem := RearmFrom(p, s, 0).mem)
    ensures Holds(p, RearmFrom(p, s, 0), a) <==> Holds(p, s, a) || a > s.regs.rip
  {
    RearmKeeps(p, s, 0);
    ArmedByte(p, s, RearmFrom(p, s, 0).mem, a);
    ListedIsNotInt3(p, s.bps, a);
  }

  lemma WrittenByte<R>(p: Program<R>, t: Session<R>, j: nat, a: int)
    requires CanRearm(p, t) && j < |t.bps| && InText(p, a)
    ensures Holds(p, Poke(p, t, t.bps[j].addr, t.bps[j].orig), a) ==
      if InWord(t.bps[j], a) then ByteOf(t.bps[j].orig, a - t.bps[j].addr) == INT3 else Holds(p, t, a)
  {
  }

  /** The byte at a after a stop that may be a hit on one of the entries. */
  ghost predicate HeldAtStop<R>(p: Program<R>, s: Session<R>, stop: Stop<R>, a: int, held: bool)
    requires |s.mem| == |p.text|
  {
    && (forall b :: Hits(s.bps, stop, b) && InWord(b, a) ==> held == (ByteOf(b.orig, a - b.addr) == INT3))
    && ((forall b :: Hits(s.bps, stop, b) ==> !InWord(b, a)) ==> held == (Holds(p, s, a) || a > s.regs.rip))
  }

  lemma OneHit<R>(p: Program<R>, s: Session<R>, stop: Stop<R>, j: nat, a: int, held: bool)
    requires |s.mem| == |p.text| && ListInv(p, s.bps) && stop.AtTrap?
    requires j < |s.bps| && s.bps[j].addr == stop.regs.rip - 1
    requires held == if InWord(s.bps[j], a) then ByteOf(s.bps[j].orig, a - s.bps[j].addr) == INT3
                     else Holds(p, s, a) || a > s.regs.rip
    ensures HeldAtStop(p, s, stop, a, held)
  {
    assert Hits(s.bps, stop, s.bps[j]);
    hide Holds, InWord;
    forall b | Hits(s.bps, stop, b) ensures b == s.bps[j] {
      var m :| 0 <= m < |s.bps| && s.bps[m] == b;
      assert m == j;
    }
  }

  /** The bytes after a stop that is not the exit. */
  lemma StopHolds<R>(p: Program<R>, s: Session<R>, stop: Stop<R>, a: int)
    requires Inv(p, s) && NoCascade(s.bps) && s.phase == Running && CanRearm(p, s) && Listed(s.bps, a)
    requires stop.AtTrap?
    ensures HeldAtStop(p, s, stop, a, Holds(p, ChkStat(p, RearmFrom(p, s, 0), stop), a))
  {
    RearmedHolds(p, s, a);
    ListedIsNotInt3(p, s.bps, a);
    hide RearmFrom, ScanFrom, Image, CanRearm, ListInv, InWord;
    var t := RearmFrom(p, s, 0).(regs := stop.regs);
    if j :| 0 <= j < |s.bps| && s.bps[j].addr == stop.regs.rip - 1 {
      HitOnce(p, t, j);
      hide HeldAtStop, Inv, NoCascade;
      WrittenByte(p, t, j, a);
      OneHit(p, s, stop, j, a, Holds(p, ChkStat(p, RearmFrom(p, s, 0), stop), a));
    } else {
      ScanExact(p, t, 0);
    }
  }

  lemma DeleteHolds<R>(p: Program<R>, s: Session<R>, id: int, a: int)
    requires Inv(p, s) && s.phase == Running && CanRearm(p, s) && DeleteDefined(s, id) && Listed(s.bps, a)
    ensures HeldAfter(p, s, CDelete(id), a, Holds(p, Delete(p, s, id), a))
  {
    ListedIsNotInt3(p, s.bps, a);
    hide Inv, Imprinted;
    if HasId(s.bps, id) {
      assert WritesBack(p, s, CDelete(id), s.bps[id]);
      WrittenByte(p, s, id, a);
    }
  }

  lemma BreakHolds<R>(p: Program<R>, s: Session<R>, x: int, a: int)
    requires Inv(p, s) && s.phase == Running && CanRearm(p, s) && BreakReturns(p, s, x) && Listed(s.bps, a)
    ensures HeldAfter(p, s, CBreak(x), a, Holds(p, Break(p, s, x), a))
  {
    ListedIsNotInt3(p, s.bps, a);
    assert a != 0 by { ListedIsNotZero(p, s.bps, a); }
    hide Inv;
    if x != 0 {
      BreakEffect(p, s, x);
      hide Break;
    }
  }

  lemma ListedIsNotZero<R>(p: Program<R>, bps: seq<Breakpoint>, a: int)
    requires ListInv(p, bps) && Listed(bps, a)
    ensures a != 0
  {
    var i :| 0 <= i < |bps| && bps[i].addr == a;
    assert SavedOk(p, bps, i);
  }

  /** Command by command, whether a listed address holds 0xcc afterwards. */
  lemma HoldsExact<R>(p: Program<R>, s: Session<R>, c: Cmd<R>, a: int)
    requires Inv(p, s) && NoCascade(s.bps) && s.phase == Running && Listed(s.bps, a)
    requires CanRearm(p, s) && Returns(p, s, c) && Exec(p, s, c).phase == Running
    ensures |Exec(p, s, c).mem| == |p.text| && HeldAfter(p, s, c, a, Holds(p, Exec(p, s, c), a))
  {
    hide Inv, NoCascade, Holds, InWord, RearmFrom, ScanFrom, RunToStop, HeldAfter;
    match c
    case CBreak(x) => BreakHolds(p, s, x, a);
    case CDelete(id) => DeleteHolds(p, s, id, a);
    case CCont(n) => ResumeHolds(p, s, c, ContStop(p, s, n), a);
    case CRun(_, n) => ResumeHolds(p, s, c, ContStop(p, s, n), a);
    case CSi => ResumeHolds(p, s, c, SingleStep(p, RearmFrom(p, s, 0).mem, s.regs), a);
    case _ => QuietHolds(p, s, c, a);
  }

  lemma ResumeHolds<R>(p: Program<R>, s: Session<R>, c: Cmd<R>, stop: Stop<R>, a: int)
    requires Inv(p, s) && NoCascade(s.bps) && s.phase == Running && Listed(s.bps, a)
    requires CanRearm(p, s) && Returns(p, s, c) && Resuming(c) && !stop.Busy?
    requires stop == if c.CSi? then SingleStep(p, RearmFrom(p, s, 0).mem, s.regs) else ContStop(p, s, c.n)
    requires ChkStat(p, RearmFrom(p, s, 0), stop).phase == Running
    ensures HeldAfter(p, s, c, a, Holds(p, ChkStat(p, RearmFrom(p, s, 0), stop), a))
  {
    hide Inv, NoCascade, Holds, InWord, RearmFrom, ScanFrom, RunToStop, SingleStep;
    StopHolds(p, s, stop, a);
    assert forall b :: WritesBack(p, s, c, b) <==> Hits(s.bps, stop, b);
  }

  lemma QuietHolds<R>(p: Program<R>, s: Session<R>, c: Cmd<R>, a: int)
    requires |s.mem| == |p.text| && s.phase == Running
    requires CanRearm(p, s) && Returns(p, s, c) && (c.CSet? || c.CLoad? || c.CStart?)
    ensures |Exec(p, s, c).mem| == |p.text| && HeldAfter(p, s, c, a, Holds(p, Exec(p, s, c), a))
  {
  }

  /** A listed address that holds 0xcc loses it by a command exactly when the command writes back a
      word - that of a hit, or of the entry it erases - which saved another byte there. */
  lemma DisarmsExact<R>(p: Program<R>, s: Session<R>, c: Cmd<R>, a: int)
    requires Inv(p, s) && NoCascade(s.bps) && s.phase == Running && Listed(s.bps, a) && Holds(p, s, a)
    requires CanRearm(p, s) && Returns(p, s, c) && Exec(p, s, c).phase == Running
    ensures |Exec(p, s, c).mem| == |p.text|
    ensures !Holds(p, Exec(p, s, c), a) <==>
      exists b :: WritesBack(p, s, c, b) && InWord(b, a) && ByteOf(b.orig, a - b.addr) != INT3
  {
    HoldsExact(p, s, c, a);
    hide Inv, NoCascade, Holds, Exec, WritesBack, Returns;
  }
}
