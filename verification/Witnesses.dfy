/** Sessions in which the debugger is not invisible: one for each way it fails. */
module Witnesses {
  import opened Words
  import opened Tracee
  import opened Sessions
  import opened ImageInvariant
  import opened Runs
  import opened FaithfulRuns
  import opened Stuttering

  // ----- a program of one-byte instructions that count how often they run -----

  const NOP: Byte := 0x90

  /** The text with 0xcc at the given addresses. */
  function Text(planted: set<int>): (m: Mem)
    ensures |m| == 16
  {
    seq(16, i requires 0 <= i < 16 => if i + 1 in planted then INT3 else NOP)
  }

  /** Each instruction counts itself. The one at 12 jumps back to 1 the first time; behind 16 the
      program exits. */
  function Nops(): (p: Program<int>) {
    Program(1, Text({}), Regs(1, 0), _ => 1,
            (m: Mem, r: Regs<int>) =>
              if r == Regs(12, 11) then Next(Regs(1, 12))
              else if 1 <= r.rip < 17 then Next(Regs(r.rip + 1, r.rest + 1)) else Exit)
  }

  /** The native states: the count goes up by one, and rip with it, once around the loop. */
  predicate InStep(r: Regs<int>) {
    (r.rip == 1 + r.rest && 0 <= r.rest < 12) || (r.rip == r.rest - 11 && 12 <= r.rest <= 28)
  }

  lemma {:induction false} NopsCount(k: nat)
    ensures Native(Nops(), Nops().entry, k).Next? ==> InStep(Native(Nops(), Nops().entry, k).regs)
  {
    if k != 0 {
      NopsCount(k - 1);
    }
  }

  /** No native state looks like this. */
  ghost predicate OffNativeRun(r: Regs<int>) {
    forall k: nat :: Native(Nops(), Nops().entry, k) != Next(r)
  }

  lemma CountBehind(r: Regs<int>)
    requires !InStep(r)
    ensures OffNativeRun(r)
  {
    forall k: nat ensures Native(Nops(), Nops().entry, k) != Next(r) {
      NopsCount(k);
    }
  }

  // ----- what the commands do to it -----

  /** A process with pid 7 stopped at r. */
  function Stopped(planted: set<int>, bps: seq<Breakpoint>, r: Regs<int>): Session<int> {
    Session(Running, 7, bps, Text(planted), r)
  }

  /** An entry for address a that was made while 0xcc stood at the given addresses. */
  function Entry(id: int, a: int, planted: set<int>): (b: Breakpoint)
    requires 1 <= a <= 9
    ensures b.id == id && b.addr == a
  {
    assert Pow256(8) == TWO64;
    Breakpoint(id, a, Load(Text(planted), a - 1, 8))
  }

  predicate AllMapped(bps: seq<Breakpoint>) {
    forall i :: 0 <= i < |bps| ==> 1 <= bps[i].addr <= 9
  }

  lemma Breaks(planted: set<int>, bps: seq<Breakpoint>, r: Regs<int>, a: int)
    requires 1 <= a <= 9 && a !in planted
    ensures Break(Nops(), Stopped(planted, bps, r), a) ==
      Stopped(planted + {a}, if Listed(bps, a) then bps else bps + [Entry(|bps|, a, planted)], r)
  {
    BreakEffect(Nops(), Stopped(planted, bps, r), a);
    assert Text(planted)[a - 1 := INT3] == Text(planted + {a});
  }

  lemma BreaksNot(planted: set<int>, bps: seq<Breakpoint>, r: Regs<int>, a: int)
    requires 1 <= a <= 9 && a in planted
    ensures Break(Nops(), Stopped(planted, bps, r), a) == Stopped(planted, bps, r)
  {
    BreakEffect(Nops(), Stopped(planted, bps, r), a);
  }

  /** Writing an entry's word back: its eight addresses are as when it was made. */
  lemma Pokes(planted: set<int>, bps: seq<Breakpoint>, r: Regs<int>, id: int, a: int, was: set<int>, now: set<int>)
    requires 1 <= a <= 9
    requires forall x :: 1 <= x <= 16 ==> (x in now <==> if a <= x < a + 8 then x in was else x in planted)
    ensures Poke(Nops(), Stopped(planted, bps, r), a, Entry(id, a, was).orig) == Stopped(now, bps, r)
  {
    hide Store, FromLE, ByteOf, Pow256;
    var w := Entry(id, a, was).orig;
    var m := Store(Text(planted), a - 1, 8, w);
    forall k | 0 <= k < 16 ensures m[k] == Text(now)[k] {
      assert 1 <= k + 1 <= 16;
      if a - 1 <= k < a + 7 {
        DecodedByte(Text(was)[a - 1..a + 7], k - (a - 1));
        assert m[k] == ByteOf(w, k - (a - 1)) == Text(was)[k];
      } else {
        assert m[k] == Text(planted)[k];
      }
    }
  }

  /** Listed addresses above rip, from entry i on. */
  function Above(bps: seq<Breakpoint>, rip: int, i: nat): set<int>
    requires i <= |bps|
    decreases |bps| - i
  {
    if i == |bps| then {} else (if bps[i].addr > rip then {bps[i].addr} else {}) + Above(bps, rip, i + 1)
  }

  lemma CanAlwaysRearm(planted: set<int>, bps: seq<Breakpoint>, r: Regs<int>)
    requires AllMapped(bps)
    ensures CanRearm(Nops(), Stopped(planted, bps, r))
  {
  }

  lemma RearmStep(planted: set<int>, bps: seq<Breakpoint>, r: Regs<int>, i: nat)
    requires AllMapped(bps) && i < |bps| && CanRearm(Nops(), Stopped(planted, bps, r))
    ensures var now := planted + if bps[i].addr > r.rip then {bps[i].addr} else {};
      && CanRearm(Nops(), Stopped(now, bps, r))
      && RearmFrom(Nops(), Stopped(planted, bps, r), i) == RearmFrom(Nops(), Stopped(now, bps, r), i + 1)
  {
    hide Text, Load, Store, Break;
    var a := bps[i].addr;
    assert planted + {} == planted;
    if a > r.rip {
      assert Listed(bps, a);
      CanAlwaysRearm(planted + {a}, bps, r);
      if a in planted {
        BreaksNot(planted, bps, r, a);
        assert planted + {a} == planted;
      } else {
        Breaks(planted, bps, r, a);
      }
    }
  }

  lemma {:induction false} Rearms(planted: set<int>, bps: seq<Breakpoint>, r: Regs<int>, i: nat)
    requires AllMapped(bps) && i <= |bps|
    ensures CanRearm(Nops(), Stopped(planted, bps, r))
    ensures RearmFrom(Nops(), Stopped(planted, bps, r), i) == Stopped(planted + Above(bps, r.rip, i), bps, r)
    decreases |bps| - i
  {
    CanAlwaysRearm(planted, bps, r);
    hide Text, Nops, CanRearm, Break;
    if i == |bps| {
      assert planted + {} == planted;
    } else {
      var more := if bps[i].addr > r.rip then {bps[i].addr} else {};
      RearmStep(planted, bps, r, i);
      Rearms(planted + more, bps, r, i + 1);
      assert planted + more + Above(bps, r.rip, i + 1) == planted + (more + Above(bps, r.rip, i + 1));
    }
  }

  /** Running on to the first planted address, t. */
  lemma {:induction false} RunsTo(planted: set<int>, r: Regs<int>, t: int, n: nat)
    requires 1 <= r.rip <= t <= 12 && t in planted && n > t - r.rip
    requires forall x :: r.rip <= x < t ==> x !in planted
    ensures var stop := RunToStop(Nops(), Text(planted), r, n);
      stop.AtTrap? && stop.regs == Regs(t + 1, r.rest + (t - r.rip)) && |stop.path| == t - r.rip
    decreases t - r.rip
  {
    if r.rip < t {
      RunsTo(planted, Regs(r.rip + 1, r.rest + 1), t, n - 1);
    }
  }

  /** A cont of the stopped process runs to t and stops there. */
  lemma Conts(planted: set<int>, bps: seq<Breakpoint>, r: Regs<int>, armed: set<int>, t: int, n: nat)
    requires AllMapped(bps) && armed == planted + Above(bps, r.rip, 0)
    requires 1 <= r.rip <= t <= 12 && t in armed && n > t - r.rip
    requires forall x :: r.rip <= x < t ==> x !in armed
    ensures CanRearm(Nops(), Stopped(planted, bps, r))
    ensures ContReturns(Nops(), Stopped(planted, bps, r), n)
    ensures CanRearm(Nops(), Stopped(armed, bps, Regs(t + 1, r.rest + (t - r.rip))))
    ensures Cont(Nops(), Stopped(planted, bps, r), n) ==
      ScanFrom(Nops(), Stopped(armed, bps, Regs(t + 1, r.rest + (t - r.rip))), 0)
    ensures ContStop(Nops(), Stopped(planted, bps, r), n).AtTrap?
    ensures ContStop(Nops(), Stopped(planted, bps, r), n).regs == Regs(t + 1, r.rest + (t - r.rip))
    ensures |ContStop(Nops(), Stopped(planted, bps, r), n).path| == t - r.rip
  {
    Rearms(planted, bps, r, 0);
    RunsTo(armed, r, t, n);
  }

  /** One entry of the scan that is a hit, and one that is none. */
  lemma ScanHit(planted: set<int>, bps: seq<Breakpoint>, r: Regs<int>, i: nat, was: set<int>, now: set<int>)
    requires AllMapped(bps) && i < |bps| && bps[i].addr == r.rip - 1
    requires bps[i] == Entry(bps[i].id, bps[i].addr, was)
    requires forall x :: 1 <= x <= 16 ==>
      (x in now <==> if bps[i].addr <= x < bps[i].addr + 8 then x in was else x in planted)
    ensures CanRearm(Nops(), Stopped(planted, bps, r))
    ensures CanRearm(Nops(), Stopped(now, bps, Regs(r.rip - 1, r.rest)))
    ensures ScanFrom(Nops(), Stopped(planted, bps, r), i) ==
      ScanFrom(Nops(), Stopped(now, bps, Regs(r.rip - 1, r.rest)), i + 1)
  {
    Pokes(planted, bps, r, bps[i].id, bps[i].addr, was, now);
  }

  lemma ScanMiss(planted: set<int>, bps: seq<Breakpoint>, r: Regs<int>, i: nat)
    requires AllMapped(bps) && i < |bps| && bps[i].addr != r.rip - 1
    ensures CanRearm(Nops(), Stopped(planted, bps, r))
    ensures ScanFrom(Nops(), Stopped(planted, bps, r), i) == ScanFrom(Nops(), Stopped(planted, bps, r), i + 1)
  {
  }

  lemma ScanDone(planted: set<int>, bps: seq<Breakpoint>, r: Regs<int>)
    requires AllMapped(bps)
    ensures CanRearm(Nops(), Stopped(planted, bps, r))
    ensures ScanFrom(Nops(), Stopped(planted, bps, r), |bps|) == Stopped(planted, bps, r)
  {
  }

  // ----- scripts -----

  /** The script comes back to the prompt at every command and ends in s. */
  ghost predicate Reaches(cs: seq<Cmd<int>>, s: Session<int>) {
    ReturnsRun(Nops(), Fresh(Nops()), cs) && Final(Nops(), Fresh(Nops()), cs) == s
  }

  lemma {:induction false} FinalAppend<R>(p: Program<R>, s: Session<R>, cs: seq<Cmd<R>>, c: Cmd<R>)
    requires ReturnsRun(p, s, cs)
    requires CanRearm(p, Final(p, s, cs)) && Returns(p, Final(p, s, cs), c)
    ensures ReturnsRun(p, s, cs + [c]) && Final(p, s, cs + [c]) == Exec(p, Final(p, s, cs), c)
    decreases |cs|
  {
    hide Exec, Returns;
    if cs == [] {
      assert (cs + [c])[1..] == [];
    } else {
      assert (cs + [c])[0] == cs[0] && (cs + [c])[1..] == cs[1..] + [c];
      FinalAppend(p, Exec(p, s, cs[0]), cs[1..], c);
    }
  }

  lemma ReachesNext(cs: seq<Cmd<int>>, s: Session<int>, c: Cmd<int>)
    requires Reaches(cs, s) && CanRearm(Nops(), s) && Returns(Nops(), s, c)
    ensures Reaches(cs + [c], Exec(Nops(), s, c))
  {
    FinalAppend(Nops(), Fresh(Nops()), cs, c);
  }

  function StartScript(): seq<Cmd<int>> {
    [CLoad(true), CStart(7)]
  }

  lemma Starts()
    ensures Reaches(StartScript(), Stopped({}, [], Regs(1, 0)))
  {
    var s0 := Fresh(Nops());
    var first: seq<Cmd<int>> := [];
    assert Reaches(first, s0);
    ReachesNext(first, s0, CLoad(true));
    var s1 := Exec(Nops(), s0, CLoad(true));
    ReachesNext(first + [CLoad(true)], s1, CStart(7));
    assert first + [CLoad(true)] + [CStart(7)] == StartScript();
  }

  lemma BreakReaches(cs: seq<Cmd<int>>, planted: set<int>, bps: seq<Breakpoint>, r: Regs<int>, a: int)
    requires Reaches(cs, Stopped(planted, bps, r))
    requires 1 <= a <= 9 && a !in planted && !Listed(bps, a) && AllMapped(bps)
    ensures Reaches(cs + [CBreak(a)], Stopped(planted + {a}, bps + [Entry(|bps|, a, planted)], r))
  {
    Breaks(planted, bps, r, a);
    Rearms(planted, bps, r, 0);
    ReachesNext(cs, Stopped(planted, bps, r), CBreak(a));
  }

  lemma ContReaches(cs: seq<Cmd<int>>, planted: set<int>, bps: seq<Breakpoint>, r: Regs<int>,
                    armed: set<int>, t: int, n: nat)
    requires Reaches(cs, Stopped(planted, bps, r)) && AllMapped(bps)
    requires armed == planted + Above(bps, r.rip, 0) && 1 <= r.rip <= t <= 12 && t in armed && n > t - r.rip
    requires forall x :: r.rip <= x < t ==> x !in armed
    ensures CanRearm(Nops(), Stopped(armed, bps, Regs(t + 1, r.rest + (t - r.rip))))
    ensures Reaches(cs + [CCont(n)], ScanFrom(Nops(), Stopped(armed, bps, Regs(t + 1, r.rest + (t - r.rip))), 0))
  {
    Conts(planted, bps, r, armed, t, n);
    hide Reaches, Stopped, ScanFrom, RearmFrom, RunToStop, Nops, CanRearm, Sessions.Cont, ContReturns;
    assert Stopped(planted, bps, r).phase == Running by { StoppedRuns(planted, bps, r); }
    ReachesNext(cs, Stopped(planted, bps, r), CCont(n));
  }

  lemma StoppedRuns(planted: set<int>, bps: seq<Breakpoint>, r: Regs<int>)
    ensures Stopped(planted, bps, r).phase == Running
  {
  }

  lemma DeleteReaches(cs: seq<Cmd<int>>, planted: set<int>, bps: seq<Breakpoint>, r: Regs<int>, i: nat,
                      was: set<int>, now: set<int>)
    requires Reaches(cs, Stopped(planted, bps, r)) && AllMapped(bps) && i < |bps| && Numbered(bps)
    requires bps[i] == Entry(i, bps[i].addr, was)
    requires forall x :: 1 <= x <= 16 ==>
      (x in now <==> if bps[i].addr <= x < bps[i].addr + 8 then x in was else x in planted)
    ensures Reaches(cs + [CDelete(i)], Stopped(now, Without(bps, i), r))
  {
    hide Reaches, Load, Store;
    CanAlwaysRearm(planted, bps, r);
    assert bps[i].id == i;
    Pokes(planted, bps, r, i, bps[i].addr, was, now);
    ReachesNext(cs, Stopped(planted, bps, r), CDelete(i));
  }

  // ----- si -----

  function SiScript(): seq<Cmd<int>> {
    StartScript() + [CBreak(1)] + [CCont(1)]
  }

  /** On the breakpoint at 1, its byte back in place. */
  lemma OnBreakpoint()
    ensures Reaches(SiScript(), Stopped({}, [Entry(0, 1, {})], Regs(1, 0)))
  {
    hide Reaches, Text, StartScript, Entry, Nops;
    var e := Entry(0, 1, {});
    Starts();
    BreakReaches(StartScript(), {}, [], Regs(1, 0), 1);
    assert {} + {1} == {1} && [] + [e] == [e];
    ContReaches(StartScript() + [CBreak(1)], {1}, [e], Regs(1, 0), {1}, 1, 1);
    ScanHit({1}, [e], Regs(2, 0), 0, {}, {});
  }

  /** si from a one-byte instruction with a breakpoint on it: the instruction runs, and is then
      taken for a hit, so the prompt shows it as still to run. That is no native state. */
  lemma SiRunsTwice()
    ensures ReadsOwnBytes(Nops())
    ensures ReturnsRun(Nops(), Fresh(Nops()), SiScript() + [CSi])
    ensures var s := Final(Nops(), Fresh(Nops()), SiScript() + [CSi]);
      s.phase == Running && s.regs == Regs(1, 1) && OffNativeRun(Regs(1, 1))
  {
    OnBreakpoint();
    StepsAndHits();
    hide SiScript, RearmFrom, ScanFrom, Load, RunToStop;
    ReachesNext(SiScript(), Stopped({}, [Entry(0, 1, {})], Regs(1, 0)), CSi);
    CountBehind(Regs(1, 1));
  }

  lemma OneStep()
    ensures SingleStep(Nops(), Text({}), Regs(1, 0)) == AtTrap(Regs(2, 1), [Regs(1, 0)])
  {
  }

  lemma StepsAndHits()
    ensures CanRearm(Nops(), Stopped({}, [Entry(0, 1, {})], Regs(1, 0)))
    ensures Si(Nops(), Stopped({}, [Entry(0, 1, {})], Regs(1, 0))) == Stopped({}, [Entry(0, 1, {})], Regs(1, 1))
  {
    var e := Entry(0, 1, {});
    hide Entry, ScanFrom, RearmFrom, Text, Nops, CanRearm, SingleStep;
    Rearms({}, [e], Regs(1, 0), 0);
    assert Above([e], 1, 0) == {};
    OneStep();
    ScanHit({}, [e], Regs(2, 1), 0, {}, {});
    ScanDone({}, [e], Regs(1, 1));
  }

  // ----- hits -----

  function TwoBreaks(a: int, b: int): seq<Cmd<int>> {
    StartScript() + [CBreak(a)] + [CBreak(b)]
  }

  /** Two entries, the second one's word saved while the first one's 0xcc stood. */
  function Two(a: int, b: int): (bps: seq<Breakpoint>)
    requires 1 <= a <= 9 && 1 <= b <= 9
    ensures |bps| == 2 && bps[0].addr == a && bps[1].addr == b && Numbered(bps) && AllMapped(bps)
  {
    [Entry(0, a, {}), Entry(1, b, {a})]
  }

  lemma TwoListed(a: int, b: int)
    requires 1 <= a <= 9 && 1 <= b <= 9 && a != b
    ensures Reaches(TwoBreaks(a, b), Stopped({a, b}, Two(a, b), Regs(1, 0)))
  {
    hide Reaches, Text, StartScript, Nops;
    Starts();
    BreakReaches(StartScript(), {}, [], Regs(1, 0), a);
    assert {} + {a} == {a} && [] + [Entry(0, a, {})] == [Entry(0, a, {})];
    BreakReaches(StartScript() + [CBreak(a)], {a}, [Entry(0, a, {})], Regs(1, 0), b);
    assert {a} + {b} == {a, b} && [Entry(0, a, {})] + [Entry(1, b, {a})] == Two(a, b);
  }

  /** Off the planted byte at 1, which was listed second. */
  lemma OffFirst(a: int)
    requires 1 < a <= 9
    ensures Reaches(TwoBreaks(a, 1) + [CCont(1)], Stopped({a}, Two(a, 1), Regs(1, 0)))
  {
    hide Reaches, Text, TwoBreaks, Nops;
    TwoListed(a, 1);
    assert {a, 1} + Above(Two(a, 1), 1, 0) == {a, 1};
    ContReaches(TwoBreaks(a, 1), {a, 1}, Two(a, 1), Regs(1, 0), {a, 1}, 1, 1);
    ScanMiss({a, 1}, Two(a, 1), Regs(2, 0), 0);
    ScanHit({a, 1}, Two(a, 1), Regs(2, 0), 1, {a}, {a});
  }

  function CascadeScript(): seq<Cmd<int>> {
    TwoBreaks(2, 1) + [CCont(1)] + [CCont(2)]
  }

  /** A hit with a later-listed breakpoint one below: rip steps back twice, past the breakpoint
      and onto an instruction that has already run. */
  lemma HitCascades()
    ensures ReadsOwnBytes(Nops())
    ensures ReturnsRun(Nops(), Fresh(Nops()), CascadeScript())
    ensures var s := Final(Nops(), Fresh(Nops()), CascadeScript());
      s.phase == Running && s.regs == Regs(1, 1) && OffNativeRun(Regs(1, 1))
  {
    CascadeReached();
    CountBehind(Regs(1, 1));
  }

  lemma CascadeReached()
    ensures Reaches(CascadeScript(), Stopped({2}, Two(2, 1), Regs(1, 1)))
  {
    hide Reaches, Text, TwoBreaks, Nops, Entry, ScanFrom;
    var bps := Two(2, 1);
    OffFirst(2);
    assert {2} + Above(bps, 1, 0) == {2};
    ContReaches(TwoBreaks(2, 1) + [CCont(1)], {2}, bps, Regs(1, 0), {2}, 2, 2);
    ScanHit({2}, bps, Regs(3, 1), 0, {}, {});
    ScanHit({}, bps, Regs(2, 1), 1, {2}, {2});
    ScanDone({2}, bps, Regs(1, 1));
  }

  // ----- a breakpoint in a loop -----

  function LoopScript(): seq<Cmd<int>> {
    StartScript() + [CBreak(2)] + [CCont(2)]
  }

  /** The first time around: at the breakpoint at 2, its byte back in place. */
  lemma FirstTime()
    ensures Reaches(LoopScript(), Stopped({}, [Entry(0, 2, {})], Regs(2, 1)))
  {
    hide Reaches, Text, StartScript, Nops, Entry, ScanFrom;
    var e := Entry(0, 2, {});
    Starts();
    BreakReaches(StartScript(), {}, [], Regs(1, 0), 2);
    assert {} + {2} == {2} && [] + [e] == [e];
    assert {2} + Above([e], 1, 0) == {2};
    ContReaches(StartScript() + [CBreak(2)], {2}, [e], Regs(1, 0), {2}, 2, 2);
    ScanHit({2}, [e], Regs(3, 1), 0, {}, {});
    ScanDone({}, [e], Regs(2, 1));
  }

  /** From any native state the program runs to its exit, past 2 the second time around. */
  lemma {:induction false} RunsOut(r: Regs<int>, n: nat)
    requires InStep(r) && n > 28 - r.rest
    ensures var stop := RunToStop(Nops(), Text({}), r, n);
      stop.AtExit? && (r.rest <= 13 ==> 13 - r.rest < |stop.path| && stop.path[13 - r.rest] == Regs(2, 13))
    decreases 28 - r.rest
  {
    if r.rest < 28 {
      RunsOut(if r.rest == 11 then Regs(1, 12) else Regs(r.rip + 1, r.rest + 1), n - 1);
    }
  }

  /** A breakpoint in a loop stops its process once: the hit puts the original byte back, and the
      cont from there, at rip, does not re-arm it. The program is at 2 a second time, where the
      breakpoint is still listed, and runs on to its exit. */
  lemma LoopMissed()
    ensures ReadsOwnBytes(Nops())
    ensures ReturnsRun(Nops(), Fresh(Nops()), LoopScript())
    ensures ReturnsRun(Nops(), Fresh(Nops()), LoopScript() + [CCont(28)])
    ensures var hit := Final(Nops(), Fresh(Nops()), LoopScript());
      && hit.regs == Regs(2, 1) && Listed(hit.bps, 2)
      && CanRearm(Nops(), hit) && Regs(2, 13) in Completed(Nops(), hit, CCont(28))
    ensures Final(Nops(), Fresh(Nops()), LoopScript() + [CCont(28)]).phase == Loaded
  {
    FirstTime();
    var bps := [Entry(0, 2, {})];
    var s := Stopped({}, bps, Regs(2, 1));
    Rearms({}, bps, Regs(2, 1), 0);
    assert Above(bps, 2, 0) == {};
    RunsOut(Regs(2, 1), 28);
    hide LoopScript, RearmFrom, ScanFrom, RunToStop, Load;
    assert bps[0].addr == 2;
    ReachesNext(LoopScript(), s, CCont(28));
  }

  // ----- deletes -----

  function HitScript(): seq<Cmd<int>> {
    TwoBreaks(3, 1) + [CCont(1)] + [CCont(3)]
  }

  /** At the breakpoint at 3, its byte back in place. */
  lemma AtHit()
    ensures Reaches(HitScript(), Stopped({}, Two(3, 1), Regs(3, 2)))
  {
    hide Reaches, Text, TwoBreaks, Nops, Entry, ScanFrom;
    var bps := Two(3, 1);
    OffFirst(3);
    assert {3} + Above(bps, 1, 0) == {3};
    ContReaches(TwoBreaks(3, 1) + [CCont(1)], {3}, bps, Regs(1, 0), {3}, 3, 3);
    ScanHit({3}, bps, Regs(4, 2), 0, {}, {});
    ScanMiss({}, bps, Regs(3, 2), 1);
    ScanDone({}, bps, Regs(3, 2));
  }

  /** Progress after a hit is not kept by a last-in-first-out delete: stopped at the breakpoint at
      3, deleting the entry at 1 writes back the 0xcc that its word saved at 3, and the next cont
      makes no step, though no break was given at rip. */
  lemma DeleteStalls()
    ensures ReadsOwnBytes(Nops())
    ensures ReturnsRun(Nops(), Fresh(Nops()), HitScript() + [CDelete(1)] + [CCont(1)])
    ensures ReturnsRun(Nops(), Fresh(Nops()), HitScript() + [CDelete(1)])
    ensures ReturnsRun(Nops(), Fresh(Nops()), HitScript())
    ensures var hit := Final(Nops(), Fresh(Nops()), HitScript());
      var deleted := Final(Nops(), Fresh(Nops()), HitScript() + [CDelete(1)]);
      var next := Final(Nops(), Fresh(Nops()), HitScript() + [CDelete(1)] + [CCont(1)]);
      && |hit.mem| == |deleted.mem| == |Nops().text|
      && !Stalled(Nops(), hit) && Lifo(hit, CDelete(1)) && Stalled(Nops(), deleted)
      && hit.regs == deleted.regs == next.regs == Regs(3, 2)
  {
    AtHit();
    AfterDelete();
    StallReached();
  }

  lemma AfterDelete()
    ensures Reaches(HitScript() + [CDelete(1)], Stopped({3}, [Entry(0, 3, {})], Regs(3, 2)))
  {
    hide Reaches, Text, HitScript, Nops;
    var bps := Two(3, 1);
    AtHit();
    DeleteReaches(HitScript(), {}, bps, Regs(3, 2), 1, {3}, {3});
    assert Without(bps, 1) == [Entry(0, 3, {})];
  }

  lemma StallReached()
    ensures Reaches(HitScript() + [CDelete(1)] + [CCont(1)], Stopped({}, [Entry(0, 3, {})], Regs(3, 2)))
  {
    hide Reaches, Text, HitScript, Nops, Entry;
    var bps := [Entry(0, 3, {})];
    AfterDelete();
    assert {3} + Above(bps, 3, 0) == {3};
    ContReaches(HitScript() + [CDelete(1)], {3}, bps, Regs(3, 2), {3}, 3, 1);
    ScanHit({3}, bps, Regs(4, 2), 0, {}, {});
  }

  function DamageScript(): seq<Cmd<int>> {
    TwoBreaks(3, 1) + [CDelete(0)] + [CCont(1)]
  }

  /** Deleting the entry at 3, whose 0xcc the later entry at 1 has saved: the hit at 1 writes that
      0xcc back, over an address that is no longer listed. */
  lemma DamageReached()
    ensures Reaches(DamageScript(), Stopped({3}, [Entry(1, 1, {3})], Regs(1, 0)))
  {
    hide Reaches, Text, TwoBreaks, Nops, Entry;
    var bps := [Entry(1, 1, {3})];
    TwoListed(3, 1);
    DeleteReaches(TwoBreaks(3, 1), {3, 1}, Two(3, 1), Regs(1, 0), 0, {}, {1});
    assert Without(Two(3, 1), 0) == bps;
    assert {1} + Above(bps, 1, 0) == {1};
    ContReaches(TwoBreaks(3, 1) + [CDelete(0)], {1}, bps, Regs(1, 0), {1}, 1, 1);
    ScanHit({1}, bps, Regs(2, 0), 0, {3}, {3});
  }

  /** The process then traps there, and its instruction at 3 is passed over without having run. */
  lemma EarlierDeleteSkips()
    ensures ReadsOwnBytes(Nops())
    ensures ReturnsRun(Nops(), Fresh(Nops()), DamageScript())
    ensures ReturnsRun(Nops(), Fresh(Nops()), DamageScript() + [CCont(3)])
    ensures var s := Final(Nops(), Fresh(Nops()), DamageScript());
      |s.mem| == 16 && s.mem[2] == INT3 && !Listed(s.bps, 3)
    ensures var s := Final(Nops(), Fresh(Nops()), DamageScript() + [CCont(3)]);
      s.phase == Running && s.regs == Regs(4, 2) && OffNativeRun(Regs(4, 2))
  {
    DamageReached();
    SkipReached();
    CountBehind(Regs(4, 2));
  }

  lemma SkipReached()
    ensures Reaches(DamageScript() + [CCont(3)], Stopped({3}, [Entry(1, 1, {3})], Regs(4, 2)))
  {
    hide Reaches, Text, DamageScript, Nops, Entry;
    var bps := [Entry(1, 1, {3})];
    DamageReached();
    assert {3} + Above(bps, 1, 0) == {3};
    ContReaches(DamageScript(), {3}, bps, Regs(1, 0), {3}, 3, 3);
    ScanMiss({3}, bps, Regs(4, 2), 0);
  }

  // ----- failures every session can run into -----

  /** After deleting any breakpoint but the last, deleting the last one by its id reads past
      the end of the list. */
  lemma DeleteThenOutOfRange<R>(p: Program<R>, s: Session<R>, id: nat)
    requires CanRearm(p, s) && Numbered(s.bps) && s.phase == Running && id + 1 < |s.bps|
    ensures DeleteDefined(s, id) && !DeleteDefined(Delete(p, s, id), |s.bps| - 1)
  {
    assert s.bps[id].id == id;
    var r := Delete(p, s, id);
    assert r.bps == Without(s.bps, id);
    assert r.bps[|s.bps| - 2] == s.bps[|s.bps| - 1];
  }

  lemma DeletesAtIndex<R>(p: Program<R>, s: Session<R>, id: nat)
    requires CanRearm(p, s) && s.phase == Running && id < |s.bps| && HasId(s.bps, id)
    ensures Delete(p, s, id).bps == Without(s.bps, id) && Delete(p, s, id).phase == Running
  {
  }

  /** And deleting one in between finds it, but erases the entry after it. */
  lemma DeleteThenWrongEntry<R>(p: Program<R>, s: Session<R>, id: nat, k: nat)
    requires CanRearm(p, s) && Numbered(s.bps) && s.phase == Running && id < k < |s.bps| - 1
    ensures DeleteDefined(s, id)
    ensures var r := Delete(p, s, id);
      && r.bps[k - 1].id == k && r.bps[k].id == k + 1 && DeleteDefined(r, k)
      && Delete(p, r, k).bps == Without(r.bps, k)
  {
    assert s.bps[id].id == id;
    DeletesAtIndex(p, s, id);
    hide Delete;
    var r := Delete(p, s, id);
    assert r.bps[k - 1] == s.bps[k] && r.bps[k] == s.bps[k + 1];
    DeletesAtIndex(p, r, k);
  }

  /** Loading over a running program leaves a session that no command changes any more. */
  lemma LoadWedges<R>(p: Program<R>, s: Session<R>, cs: seq<Cmd<R>>)
    requires Inv(p, s) && s.phase == Running && ReturnsRun(p, LoadFile(s, true), cs)
    ensures Final(p, LoadFile(s, true), cs) == LoadFile(s, true)
    ensures LoadFile(s, true).phase == Loaded && LoadFile(s, true).pid == s.pid != 0
  {
    WedgedForever(p, LoadFile(s, true), cs);
  }
}
