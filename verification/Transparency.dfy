/** The debugged run is a stuttering copy of the native run. */
module Transparency {
  import opened Words
  import opened Tracee
  import opened Sessions
  import opened ImageInvariant

  // ----- the scan after a trap -----

  /** rip never grows during a scan, and stays put exactly when no listed address is one
      below it. */
  lemma {:induction false} ScanExact<R>(p: Program<R>, s: Session<R>, i: nat)
    requires CanRearm(p, s) && i <= |s.bps|
    ensures ScanFrom(p, s, i).regs.rip <= s.regs.rip
    ensures ScanFrom(p, s, i).regs.rip == s.regs.rip <==> !ListedFrom(s.bps, i, s.regs.rip - 1)
    ensures !ListedFrom(s.bps, i, s.regs.rip - 1) ==> ScanFrom(p, s, i) == s
    decreases |s.bps| - i
  {
    if i < |s.bps| {
      if s.bps[i].addr == s.regs.rip - 1 {
        ScanExact(p, Rewound(p, s, i), i + 1);
      } else {
        ScanExact(p, s, i + 1);
      }
    }
  }

  /** One hit: the saved word goes back and rip steps down. */
  ghost function Rewound<R>(p: Program<R>, s: Session<R>, i: nat): (r: Session<R>)
    requires CanRearm(p, s) && i < |s.bps|
    ensures CanRearm(p, r)
  {
    Poke(p, s, s.bps[i].addr, s.bps[i].orig).(regs := s.regs.(rip := s.regs.rip - 1))
  }

  lemma {:induction false} ScanReaches<R>(p: Program<R>, s: Session<R>, i: nat, j: nat)
    requires CanRearm(p, s) && i <= j < |s.bps| && s.bps[j].addr == s.regs.rip - 1
    requires forall m :: i <= m < j ==> s.bps[m].addr != s.bps[j].addr
    ensures ScanFrom(p, s, i) == ScanFrom(p, Rewound(p, s, j), j + 1)
    decreases j - i
  {
    if i < j {
      ScanReaches(p, s, i + 1, j);
    }
  }

  /** A trap at entry j leaves rip at the breakpoint exactly when no later entry lies one
      below it; if one does, the scan takes that for a second hit. */
  lemma HitExact<R>(p: Program<R>, s: Session<R>, j: nat)
    requires Inv(p, s) && s.phase == Running && CanRearm(p, s)
    requires j < |s.bps| && s.bps[j].addr == s.regs.rip - 1
    ensures var b := s.bps[j].addr; var r := ScanFrom(p, s, 0);
      && (r.regs.rip == b <==> !ListedFrom(s.bps, j + 1, b - 1))
      && (r.regs.rip == b ==> r == Rewound(p, s, j) && r.mem[b - p.base] == p.text[b - p.base])
  {
    ScanReaches(p, s, 0, j);
    ScanExact(p, Rewound(p, s, j), j + 1);
    PokeSaved(p, s, j);
  }

  // ----- simulation -----

  /** No entry is one below an entry listed before it. */
  ghost predicate NoCascade(bps: seq<Breakpoint>) {
    forall i, j :: 0 <= i < j < |bps| ==> bps[j].addr != bps[i].addr - 1
  }

  /** Where a session is on a native run: k steps from o, the state the process was last
      started in or the user last installed. */
  datatype Pos<R> = Pos(o: Regs<R>, k: nat)

  ghost predicate OnNativeRun<R(!new)>(p: Program<R>, s: Session<R>, pos: Pos<R>) {
    && Inv(p, s)
    && NoCascade(s.bps)
    && (s.phase == Running ==>
         Native(p, pos.o, pos.k) == Next(s.regs) && AllAligned(p, pos.o, Sites(s.bps)))
  }

  /** A native int3 is not the debugger's; stopping at it is one native step. */
  predicate OwnTrap<R>(p: Program<R>, r: Regs<R>) {
    InText(p, r.rip - 1) && p.text[r.rip - 1 - p.base] == INT3
  }

  /** The states whose instructions are complete at a stop; the program's own int3, which traps
      like a breakpoint, is one of them. */
  function StopPath<R>(p: Program<R>, stop: Stop<R>): seq<Regs<R>> {
    match stop
    case Busy => []
    case AtExit(path) => path
    case AtTrap(r, path) => path + if OwnTrap(p, r) then [r.(rip := r.rip - 1)] else []
  }

  /** Native steps made before a stop. */
  function StopSteps<R>(p: Program<R>, stop: Stop<R>): nat {
    |StopPath(p, stop)|
  }

  lemma StopPathNative<R>(p: Program<R>, mem: Mem, o: Regs<R>, k: nat, stop: Stop<R>)
    requires |mem| == |p.text| && StopsLikeNative(p, mem, o, k, stop)
    ensures IsNativePath(p, o, k, StopPath(p, stop))
  {
    hide Native;
  }

  ghost function ContSteps<R>(p: Program<R>, s: Session<R>, n: nat): nat
    requires CanRearm(p, s)
  {
    StopSteps(p, ContStop(p, s, n))
  }

  lemma OwnTrapNotListed<R>(p: Program<R>, bps: seq<Breakpoint>, r: Regs<R>)
    requires ListInv(p, bps) && OwnTrap(p, r)
    ensures !Listed(bps, r.rip - 1)
  {
    forall i | 0 <= i < |bps| ensures bps[i].addr != r.rip - 1 {
      assert SavedOk(p, bps, i);
    }
  }

  /** A trap on a native run, scanned: at a breakpoint the native state with the original byte
      back in place; at the program's own int3 the state after it. */
  lemma ScanTrap<R(!new)>(p: Program<R>, s: Session<R>, o: Regs<R>, k: nat)
    requires Inv(p, s) && NoCascade(s.bps) && s.phase == Running && CanRearm(p, s)
    requires TrapsAtNative(p, s.mem, o, k, s.regs)
    ensures var r := ScanFrom(p, s, 0); var steps := if OwnTrap(p, s.regs) then 1 else 0;
      && Native(p, o, k + steps) == Next(r.regs)
      && (steps == 0 ==> r.mem[r.regs.rip - p.base] == p.text[r.regs.rip - p.base])
  {
    hide ScanFrom, CanRearm;
    var a := s.regs.rip - 1;
    if OwnTrap(p, s.regs) {
      OwnTrapNotListed(p, s.bps, s.regs);
      ScanExact(p, s, 0);
    } else {
      assert p.base + (a - p.base) in Sites(s.bps);
      var j :| 0 <= j < |s.bps| && s.bps[j].addr == a;
      HitExact(p, s, j);
      assert ScanFrom(p, s, 0) == Rewound(p, s, j);
    }
  }

  /** What a cont waits for, in native terms. */
  lemma ArmedStop<R(!new)>(p: Program<R>, s: Session<R>, pos: Pos<R>, n: nat) returns (armed: Session<R>)
    requires ReadsOwnBytes(p) && OnNativeRun(p, s, pos) && s.phase == Running && CanRearm(p, s)
    ensures armed == RearmFrom(p, s, 0) == s.(mem := armed.mem)
    ensures Inv(p, armed) && CanRearm(p, armed) && PatchedAt(p, armed.mem, Sites(s.bps))
    ensures StopsLikeNative(p, armed.mem, pos.o, pos.k, ContStop(p, s, n))
    ensures InText(p, s.regs.rip) ==> armed.mem[s.regs.rip - p.base] == s.mem[s.regs.rip - p.base]
  {
    RearmKeeps(p, s, 0);
    armed := RearmFrom(p, s, 0);
    RunAgrees(p, armed.mem, Sites(s.bps), pos.o, pos.k, n);
  }

  /** What the prompt shows of a stop: the native exit; the state past the program's own int3;
      or the native state at a breakpoint, with the original byte back under rip. */
  ghost predicate Shows<R>(p: Program<R>, r: Session<R>, stop: Stop<R>, native: Outcome<R>) {
    match stop
    case Busy => false
    case AtExit(_) => r.phase == Loaded && native == Exit
    case AtTrap(t, _) =>
      && r.phase == Running && |r.mem| == |p.text| && native == Next(r.regs)
      && (OwnTrap(p, t) || (r.regs == t.(rip := t.rip - 1) && InText(p, t.rip - 1)
                            && r.mem[t.rip - 1 - p.base] == p.text[t.rip - 1 - p.base]))
  }

  /** Registers do not matter to the invariant. */
  lemma SameText<R>(p: Program<R>, s: Session<R>, u: Session<R>)
    requires Inv(p, s) && CanRearm(p, s) && u == s.(regs := u.regs)
    ensures Inv(p, u) && CanRearm(p, u)
  {
  }

  lemma AfterStop<R(!new)>(p: Program<R>, armed: Session<R>, o: Regs<R>, k: nat, stop: Stop<R>)
    requires Inv(p, armed) && CanRearm(p, armed) && armed.phase == Running && NoCascade(armed.bps)
    requires !stop.Busy? && StopsLikeNative(p, armed.mem, o, k, stop)
    ensures ChkStat(p, armed, stop).bps == armed.bps
    ensures Shows(p, ChkStat(p, armed, stop), stop, Native(p, o, k + StopSteps(p, stop)))
  {
    hide Native, ScanFrom, ListInv, Image;
    match stop
    case AtExit(path) =>
    case AtTrap(t, path) =>
      var u := armed.(regs := t);
      assert Inv(p, u) && CanRearm(p, u) by { SameText(p, armed, u); }
      hide Inv, NoCascade, CanRearm;
      ScanTrap(p, u, o, k + |path|);
  }

  /** cont: the process completes exactly the native steps from the current state up to the
      stop; what the prompt then shows is the native state reached, or the native exit. */
  lemma ContFollows<R(!new)>(p: Program<R>, s: Session<R>, pos: Pos<R>, n: nat)
    requires ReadsOwnBytes(p) && OnNativeRun(p, s, pos) && s.phase == Running
    requires CanRearm(p, s) && ContReturns(p, s, n)
    ensures IsNativePath(p, pos.o, pos.k, StopPath(p, ContStop(p, s, n)))
    ensures var r := Cont(p, s, n); var k' := pos.k + ContSteps(p, s, n);
      && OnNativeRun(p, r, Pos(pos.o, k')) && r.bps == s.bps
      && (r.phase != Running ==> r.phase == Loaded && Native(p, pos.o, k') == Exit)
  {
    hide Inv, NoCascade, CanRearm, Native, RunToStop, AllAligned, ReadsOwnBytes;
    var armed := ArmedStop(p, s, pos, n);
    StopPathNative(p, armed.mem, pos.o, pos.k, ContStop(p, s, n));
    AfterStop(p, armed, pos.o, pos.k, ContStop(p, s, n));
    ContKeeps(p, s, n);
  }

  /** Whether the byte under rip is a planted 0xcc. */
  predicate OnPlanted<R>(p: Program<R>, s: Session<R>)
    requires |s.mem| == |p.text|
  {
    && InText(p, s.regs.rip)
    && s.mem[s.regs.rip - p.base] == INT3 != p.text[s.regs.rip - p.base]
  }

  /** A run is at a stop at once exactly if a 0xcc is under rip, and that is a native step
      unless it was planted. */
  lemma FirstEvent<R>(p: Program<R>, mem: Mem, regs: Regs<R>, n: nat)
    requires |mem| == |p.text| && !RunToStop(p, mem, regs, n).Busy?
    ensures var stop := RunToStop(p, mem, regs, n); var a := regs.rip;
      && (StopSteps(p, stop) == 0 <==> InText(p, a) && mem[a - p.base] == INT3 != p.text[a - p.base])
      && (InText(p, a) && mem[a - p.base] == INT3 ==> stop == AtTrap(regs.(rip := a + 1), []))
  {
  }

  /** A cont makes no native step exactly when a planted 0xcc is under rip; and then the
      original byte is back, so the next cont does make one. */
  lemma StutterExact<R(!new)>(p: Program<R>, s: Session<R>, pos: Pos<R>, n: nat)
    requires ReadsOwnBytes(p) && OnNativeRun(p, s, pos) && s.phase == Running
    requires CanRearm(p, s) && ContReturns(p, s, n)
    ensures ContSteps(p, s, n) == 0 <==> OnPlanted(p, s)
    ensures var r := Cont(p, s, n);
      OnPlanted(p, s) ==> r.phase == Running && r.regs == s.regs && !OnPlanted(p, r)
  {
    hide Inv, NoCascade, CanRearm, Native, AllAligned, ReadsOwnBytes, StopsLikeNative, PatchedAt, ScanFrom,
         RunToStop, RearmFrom;
    var armed := ArmedStop(p, s, pos, n);
    AfterStop(p, armed, pos.o, pos.k, ContStop(p, s, n));
    FirstEvent(p, armed.mem, s.regs, n);
  }

  lemma PlantedIsListed<R>(p: Program<R>, mem: Mem, bps: seq<Breakpoint>, a: int)
    requires PatchedAt(p, mem, Sites(bps)) && InText(p, a)
    requires mem[a - p.base] == INT3 != p.text[a - p.base]
    ensures Listed(bps, a)
  {
    assert p.base + (a - p.base) in Sites(bps);
  }

  /** A stop at a breakpoint leaves the original byte under rip, so the next cont makes at
      least one native step. */
  lemma ProgressAfterHit<R(!new)>(p: Program<R>, s: Session<R>, pos: Pos<R>, n: nat)
    requires ReadsOwnBytes(p) && OnNativeRun(p, s, pos) && s.phase == Running
    requires CanRearm(p, s) && ContReturns(p, s, n)
    requires ContStop(p, s, n).AtTrap? && !OwnTrap(p, ContStop(p, s, n).regs)
    ensures Cont(p, s, n).phase == Running && !OnPlanted(p, Cont(p, s, n))
    ensures Listed(s.bps, Cont(p, s, n).regs.rip)
  {
    hide Inv, NoCascade, CanRearm, Native, AllAligned, ReadsOwnBytes, ScanFrom, PatchedAt, RearmFrom, RunToStop;
    var armed := ArmedStop(p, s, pos, n);
    AfterStop(p, armed, pos.o, pos.k, ContStop(p, s, n));
    var a := ContStop(p, s, n).regs.rip - 1;
    PlantedIsListed(p, armed.mem, s.bps, a);
  }

  /** What a listed address must be for re-arming to leave 0xcc there: above rip, or a holder
      of 0xcc already. */
  ghost predicate Armed<R>(p: Program<R>, s: Session<R>, a: int)
    requires |s.mem| == |p.text|
  {
    Listed(s.bps, a) && (a > s.regs.rip || (InText(p, a) && s.mem[a - p.base] == INT3))
  }

  /** The bytes under a re-armed text. */
  lemma ArmedByte<R>(p: Program<R>, s: Session<R>, mem: Mem, a: int)
    requires Inv(p, s) && s.phase == Running && ArmedFrom(p, s, 0, mem)
    ensures Armed(p, s, a) <==> InText(p, a) && mem[a - p.base] == INT3 != p.text[a - p.base]
  {
    hide Aligned;
    if Listed(s.bps, a) {
      var i :| 0 <= i < |s.bps| && s.bps[i].addr == a;
      assert SavedOk(p, s.bps, i);
      assert p.base + (a - p.base) == a;
      assert ListedFrom(s.bps, 0, a);
    } else if InText(p, a) {
      assert p.base + (a - p.base) !in Sites(s.bps);
      assert !ListedFrom(s.bps, 0, a);
      assert mem[a - p.base] == s.mem[a - p.base];
    }
  }

  /** No overrun: up to its stop, a cont completes no instruction at a listed address above
      the rip it started from, nor at any other listed address that holds 0xcc. */
  lemma NoOverrun<R>(p: Program<R>, s: Session<R>, n: nat)
    requires Inv(p, s) && s.phase == Running && CanRearm(p, s) && ContReturns(p, s, n)
    ensures forall i :: 0 <= i < |ContStop(p, s, n).path| ==> !Armed(p, s, ContStop(p, s, n).path[i].rip)
  {
    hide RearmFrom, RunToStop, Inv, Armed;
    RearmKeeps(p, s, 0);
    var mem := RearmFrom(p, s, 0).mem;
    NeverRunsTrapByte(p, mem, s.regs, n);
    var path := ContStop(p, s, n).path;
    forall i | 0 <= i < |path| ensures !Armed(p, s, path[i].rip) {
      ArmedByte(p, s, mem, path[i].rip);
    }
  }

  // ----- single step -----

  /** The native step from here lands one byte past a listed address. */
  ghost predicate FalseHit<R>(p: Program<R>, s: Session<R>) {
    match NativeStep(p, s.regs)
    case Exit => false
    case Next(r) => Listed(s.bps, r.rip - 1)
  }

  /** Away from a planted 0xcc, a single step is the native step. */
  lemma FreeStep<R(!new)>(p: Program<R>, s: Session<R>, pos: Pos<R>) returns (armed: Session<R>)
    requires ReadsOwnBytes(p) && OnNativeRun(p, s, pos) && s.phase == Running && CanRearm(p, s)
    requires !OnPlanted(p, s)
    ensures armed == RearmFrom(p, s, 0) == s.(mem := armed.mem) && CanRearm(p, armed)
    ensures |armed.mem| == |p.text|
    ensures var stop := SingleStep(p, armed.mem, s.regs);
      if stop.AtTrap? then NativeStep(p, s.regs) == Next(stop.regs)
      else stop.AtExit? && NativeStep(p, s.regs) == Exit
  {
    hide NoCascade, Inv, Aligned, AllAligned, ReadsOwnBytes, StopsLikeNative, RearmFrom, CanRearm;
    armed := ArmedStop(p, s, pos, 1);
    StepAgrees(p, armed.mem, Sites(s.bps), pos.o, pos.k);
  }

  /** si away from a planted 0xcc makes one native step, exactly when the step does not land
      one byte past a listed address; there it is taken for a hit and rip steps back. */
  lemma SiExact<R(!new)>(p: Program<R>, s: Session<R>, pos: Pos<R>)
    requires ReadsOwnBytes(p) && OnNativeRun(p, s, pos) && s.phase == Running && CanRearm(p, s)
    requires !OnPlanted(p, s)
    ensures Inv(p, Si(p, s)) && Native(p, pos.o, pos.k + 1) == NativeStep(p, s.regs)
    ensures match NativeStep(p, s.regs)
      case Exit => Si(p, s).phase == Loaded
      case Next(next) => SteppedTo(p, s, Si(p, s), next)
  {
    hide Inv, NoCascade, AllAligned, ReadsOwnBytes;
    SiKeeps(p, s);
    var armed := FreeStep(p, s, pos);
    match SingleStep(p, armed.mem, s.regs)
    case AtExit(_) =>
    case AtTrap(r, _) =>
      assert r == NativeStep(p, s.regs).regs;
      ScanExact(p, armed.(regs := r), 0);
      assert Listed(s.bps, r.rip - 1) <==> ListedFrom(s.bps, 0, r.rip - 1);
  }

  /** The step reached next if it was not a false hit, and otherwise fell short of it. */
  ghost predicate SteppedTo<R>(p: Program<R>, s: Session<R>, r: Session<R>, next: Regs<R>) {
    && r.phase == Running && r.bps == s.bps
    && (r.regs == next <==> !FalseHit(p, s))
    && (FalseHit(p, s) ==> r.regs.rip < next.rip)
  }

  /** si re-arms as cont does: after a step that was no hit, or the exit, the text has 0xcc at
      every listed address above the rip the step started from, and is otherwise as it was. */
  lemma SiArms<R(!new)>(p: Program<R>, s: Session<R>, pos: Pos<R>)
    requires ReadsOwnBytes(p) && OnNativeRun(p, s, pos) && s.phase == Running && CanRearm(p, s)
    requires !OnPlanted(p, s) && !FalseHit(p, s)
    ensures ArmedFrom(p, s, 0, Si(p, s).mem)
  {
    RearmKeeps(p, s, 0);
    hide Inv, NoCascade, AllAligned, ReadsOwnBytes, ArmedFrom, RearmFrom;
    var armed := FreeStep(p, s, pos);
    var stop := SingleStep(p, armed.mem, s.regs);
    if stop.AtTrap? {
      ScanExact(p, armed.(regs := stop.regs), 0);
      assert Listed(s.bps, stop.regs.rip - 1) <==> ListedFrom(s.bps, 0, stop.regs.rip - 1);
    }
  }

  /** And after one that was taken for a hit: the re-armed text with the word of the entry one below
      the step's end written back, and rip on that entry's original byte. */
  lemma SiFalseHit<R(!new)>(p: Program<R>, s: Session<R>, pos: Pos<R>) returns (j: nat)
    requires ReadsOwnBytes(p) && OnNativeRun(p, s, pos) && s.phase == Running && CanRearm(p, s)
    requires !OnPlanted(p, s) && FalseHit(p, s)
    ensures j < |s.bps| && s.bps[j].addr == NativeStep(p, s.regs).regs.rip - 1
    ensures Si(p, s).regs == NativeStep(p, s.regs).regs.(rip := s.bps[j].addr)
    ensures Si(p, s) == Poke(p, RearmFrom(p, s, 0), s.bps[j].addr, s.bps[j].orig).(regs := Si(p, s).regs)
    ensures !OnPlanted(p, Si(p, s))
  {
    RearmKeeps(p, s, 0);
    hide Inv, AllAligned, ReadsOwnBytes, RearmFrom, ScanFrom;
    var armed := FreeStep(p, s, pos);
    var t := armed.(regs := NativeStep(p, s.regs).regs);
    j :| 0 <= j < |s.bps| && s.bps[j].addr == t.regs.rip - 1;
    HitOnce(p, t, j);
  }

  lemma HitOnce<R>(p: Program<R>, t: Session<R>, j: nat)
    requires Inv(p, t) && t.phase == Running && CanRearm(p, t) && NoCascade(t.bps)
    requires j < |t.bps| && t.bps[j].addr == t.regs.rip - 1
    ensures ScanFrom(p, t, 0) == Rewound(p, t, j) && !OnPlanted(p, Rewound(p, t, j))
  {
    HitExact(p, t, j);
  }

  /** si on a planted 0xcc makes no step, and puts the original byte back. */
  lemma SiStutters<R(!new)>(p: Program<R>, s: Session<R>, pos: Pos<R>)
    requires ReadsOwnBytes(p) && OnNativeRun(p, s, pos) && s.phase == Running && CanRearm(p, s)
    requires OnPlanted(p, s)
    ensures var r := Si(p, s);
      r.phase == Running && r.regs == s.regs && r.bps == s.bps && Inv(p, r) && !OnPlanted(p, r)
  {
    hide Inv, NoCascade, CanRearm, Native, AllAligned, ReadsOwnBytes;
    SiKeeps(p, s);
    var armed := ArmedStop(p, s, pos, 1);
    var stop := SingleStep(p, armed.mem, s.regs);
    assert stop == RunToStop(p, armed.mem, s.regs, 1) == AtTrap(s.regs.(rip := s.regs.rip + 1), []);
    AfterStop(p, armed, pos.o, pos.k, stop);
  }
}
