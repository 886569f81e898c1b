/** The tracer that puts back, one hit at a time, the opcodes a program had overwritten by 0xcc. */
module NoMoreTraps {
  import opened Words
  import opened Tracee

  const EOF: int := -1

  /** fgetc. */
  function CharAt(chars: seq<Byte>, i: nat): (c: int)
    ensures -1 <= c < 256
  {
    if i < |chars| then chars[i] else EOF
  }

  /** Decimal digits and lower-case letters give their value; anything else its own code. */
  function ToHex(c: int): Word
    requires -TWO64 <= c < TWO64
  {
    var num := if c < 0 then c + TWO64 else c;
    if 47 < num < 58 then num - 48
    else if 96 < num < 103 then num - 87
    else num
  }

  function DecodePair(c1: int, c2: int): nat
    requires -TWO64 <= c1 < TWO64 && -TWO64 <= c2 < TWO64
  {
    Or(ToHex(c1) * 16 % TWO64, ToHex(c2))
  }

  // ----- the hex text of a byte -----

  function HexDigit(d: nat): Byte
    requires d < 16
  {
    if d < 10 then 48 + d else 87 + d
  }

  /** What the stream is for: the lower-case hex text of a byte decodes to that byte. */
  lemma DecodesByte(b: Byte)
    ensures DecodePair(HexDigit(b / 16), HexDigit(b % 16)) == b
  {
    assert Pow2(4) == 16;
    var hi, lo := b / 16, b % 16;
    assert ToHex(HexDigit(hi)) == hi && ToHex(HexDigit(lo)) == lo;
    OrDisjoint(hi, lo, 4);
    assert hi * Pow2(4) == hi * 16 % TWO64;
  }

  predicate IsHexDigit(c: int) {
    48 <= c <= 57 || 97 <= c <= 102 || IsUpper(c)
  }

  predicate IsUpper(c: int) {
    65 <= c <= 70
  }

  function DigitValue(c: int): nat
    requires IsHexDigit(c)
  {
    if c <= 57 then c - 48 else if IsUpper(c) then c - 55 else c - 87
  }

  lemma OrEven(a: nat, b: nat)
    ensures Or(2 * a, b) == b % 2 + 2 * Or(a, b / 2)
  {
  }

  lemma OrLowPair(a: nat, b: nat)
    ensures Or(4 * a, b) == b % 4 + 4 * Or(a, b / 4)
  {
    hide Or;
    OrEven(2 * a, b);
    OrEven(a, b / 2);
    assert 2 * (2 * a) == 4 * a && b / 2 / 2 == b / 4;
  }

  lemma OrLowNibble(a: nat, b: nat)
    ensures Or(16 * a, b) == b % 16 + 16 * Or(a, b / 16)
  {
    hide Or;
    OrLowPair(4 * a, b);
    OrLowPair(a, b / 4);
    assert 4 * (4 * a) == 16 * a && b / 4 / 4 == b / 16;
  }

  lemma {:induction false} OrAtLeast(a: nat, b: nat)
    ensures Or(a, b) >= a
    decreases a
  {
    if a != 0 && b != 0 {
      OrAtLeast(a / 2, b / 2);
    }
  }

  /** Two hex digits in either case are decoded as the byte they write exactly when neither is
      an upper-case letter. */
  lemma DecodeExact(c1: int, c2: int)
    requires IsHexDigit(c1) && IsHexDigit(c2)
    ensures DecodePair(c1, c2) == 16 * DigitValue(c1) + DigitValue(c2) <==> !IsUpper(c1) && !IsUpper(c2)
  {
    hide Or;
    var hi, lo := ToHex(c1), ToHex(c2);
    assert DecodePair(c1, c2) == Or(16 * hi, lo);
    if IsUpper(c1) {
      OrAtLeast(16 * hi, lo);
    } else {
      OrLowNibble(hi, lo);
      OrSmall(hi, lo / 16);
    }
  }

  lemma OrSmall(a: nat, b: nat)
    ensures b == 0 ==> Or(a, b) == a
  {
  }

  // ----- the order in which sites are first executed -----

  /** The sites the native run from o executes in its steps k, ..., k + n - 1, each once, in
      order of first execution. */
  function FirstUses<R>(p: Program<R>, o: Regs<R>, k: nat, n: nat, sites: set<int>): seq<int>
    decreases n
  {
    if n == 0 then []
    else match Native(p, o, k)
      case Exit => []
      case Next(regs) =>
        if regs.rip in sites then [regs.rip] + FirstUses(p, o, k + 1, n - 1, sites - {regs.rip})
        else FirstUses(p, o, k + 1, n - 1, sites)
  }

  /** The hex text of the original bytes at these addresses. */
  function HexText<R>(p: Program<R>, addrs: seq<int>): seq<Byte>
    requires forall i :: 0 <= i < |addrs| ==> InText(p, addrs[i])
    decreases |addrs|
  {
    if addrs == [] then []
    else
      assert InText(p, addrs[0]);
      var b := p.text[addrs[0] - p.base];
      [HexDigit(b / 16), HexDigit(b % 16)] + HexText(p, addrs[1..])
  }

  lemma {:induction false} FirstUsesAreSites<R>(p: Program<R>, o: Regs<R>, k: nat, n: nat, sites: set<int>)
    ensures forall a :: a in FirstUses(p, o, k, n, sites) ==> a in sites
    decreases n
  {
    if n != 0 && Native(p, o, k).Next? {
      var rip := Native(p, o, k).regs.rip;
      FirstUsesAreSites(p, o, k + 1, n - 1, sites - {rip});
      FirstUsesAreSites(p, o, k + 1, n - 1, sites);
    }
  }

  /** Step i of the native run from o is at address a. */
  predicate UsesAt<R>(p: Program<R>, o: Regs<R>, i: nat, a: int) {
    Native(p, o, i).Next? && Native(p, o, i).regs.rip == a
  }

  /** The list holds exactly the sites that the run executes, each once. */
  lemma {:induction false} FirstUsesExact<R>(p: Program<R>, o: Regs<R>, k: nat, n: nat, sites: set<int>)
    ensures var uses := FirstUses(p, o, k, n, sites);
      forall a :: a in uses <==> a in sites && exists i: nat :: k <= i < k + n && UsesAt(p, o, i, a)
    ensures var uses := FirstUses(p, o, k, n, sites);
      forall x, y :: 0 <= x < y < |uses| ==> uses[x] != uses[y]
    decreases n
  {
    if n != 0 {
      if Native(p, o, k).Exit? {
        forall i: nat, a | k <= i < k + n ensures !UsesAt(p, o, i, a) {
          ExitIsFinal(p, o, k, i - k);
        }
      } else {
        var rip := Native(p, o, k).regs.rip;
        assert UsesAt(p, o, k, rip);
        var rest := if rip in sites then sites - {rip} else sites;
        FirstUsesExact(p, o, k + 1, n - 1, rest);
        assert forall i: nat, a :: k <= i < k + n && UsesAt(p, o, i, a) ==> i == k || k + 1 <= i < k + 1 + (n - 1);
      }
    }
  }

  /** Exactly the sites hold 0xcc, in place of an original byte that is not 0xcc. */
  ghost predicate TrappedAt<R>(p: Program<R>, mem: Mem, sites: set<int>) {
    && |mem| == |p.text|
    && (forall a :: a in sites ==> Mapped(p, a) && p.text[a - p.base] != INT3)
    && (forall k {:trigger mem[k]} :: 0 <= k < |mem| ==> mem[k] == if p.base + k in sites then INT3 else p.text[k])
  }

  /** The original program executes no int3 of its own. */
  ghost predicate NoOwnTraps<R>(p: Program<R>) {
    forall k: nat :: Native(p, p.entry, k).Next? ==>
      var a := Native(p, p.entry, k).regs.rip;
      InText(p, a) ==> p.text[a - p.base] != INT3
  }

  /** What the hex stream must go on with, for n more steps. */
  function Demand<R>(p: Program<R>, k: nat, n: nat, sites: set<int>): seq<Byte>
    requires forall a :: a in sites ==> InText(p, a)
  {
    FirstUsesAreSites(p, p.entry, k, n, sites);
    HexText(p, FirstUses(p, p.entry, k, n, sites))
  }

  lemma SitesTrap<R>(p: Program<R>, mem: Mem, sites: set<int>)
    requires TrappedAt(p, mem, sites)
    ensures forall a :: a in sites ==> InText(p, a) && mem[a - p.base] == INT3
  {
    forall a | a in sites ensures InText(p, a) && mem[a - p.base] == INT3 {
      assert p.base + (a - p.base) in sites;
    }
  }

  /** A site just executed is asked for once. */
  lemma FirstUsesAgain<R>(p: Program<R>, k: nat, n: nat, sites: set<int>)
    requires n > 0 && Native(p, p.entry, k).Next? && Native(p, p.entry, k).regs.rip in sites
    ensures var a := Native(p, p.entry, k).regs.rip;
      FirstUses(p, p.entry, k, n, sites) == [a] + FirstUses(p, p.entry, k, n, sites - {a})
  {
    var a := Native(p, p.entry, k).regs.rip;
    assert sites - {a} - {a} == sites - {a};
  }

  /** Putting back one opcode leaves the other sites trapped. */
  lemma PatchOne<R>(p: Program<R>, mem: Mem, sites: set<int>, a: int)
    requires TrappedAt(p, mem, sites) && a in sites
    ensures TrappedAt(p, mem[a - p.base := p.text[a - p.base]], sites - {a})
  {
  }

  /** The part of the stream a trap reads. */
  lemma DemandFirst<R>(p: Program<R>, addrs: seq<int>, a: int)
    requires InText(p, a) && forall i :: 0 <= i < |addrs| ==> InText(p, addrs[i])
    ensures forall i :: 0 <= i < |[a] + addrs| ==> InText(p, ([a] + addrs)[i])
    ensures var b := p.text[a - p.base];
      HexText(p, [a] + addrs) == [HexDigit(b / 16), HexDigit(b % 16)] + HexText(p, addrs)
  {
    assert ([a] + addrs)[1..] == addrs;
  }

  // ----- process and tracer, one event at a time -----

  /** The text and the registers of the process, the characters read, the traps counted, the
      states whose instructions are complete, and whether the process is gone. */
  datatype Tracing<R> = Tracing(
    mem: Mem, regs: Regs<R>, at: nat, traps: nat, visited: seq<Regs<R>>, gone: bool)

  function Begin<R>(p: Program<R>, mem: Mem): Tracing<R> {
    Tracing(mem, p.entry, 0, 0, [], false)
  }

  /** What the tracer does when the process stops one past rip, at a 0xcc: the word there gets the
      byte that two characters write as its low byte, and the process is put back to rip. A word
      that cannot be read is no hit, and the process goes on behind the 0xcc. */
  function Serve<R>(p: Program<R>, chars: seq<Byte>, t: Tracing<R>): (r: Tracing<R>)
    requires |t.mem| == |p.text|
    ensures |r.mem| == |p.text|
  {
    if !Mapped(p, t.regs.rip) then t.(regs := t.regs.(rip := t.regs.rip + 1))
    else
      var b := DecodePair(CharAt(chars, t.at), CharAt(chars, t.at + 1));
      t.(mem := PatchLow(t.mem, t.regs.rip - p.base, b), at := t.at + 2, traps := t.traps + 1)
  }

  lemma {:induction false} OrOnes(a: nat, k: nat)
    requires a < Pow2(k)
    ensures Or(a, Pow2(k) - 1) == Pow2(k) - 1
  {
    if k != 0 && a != 0 {
      assert (Pow2(k) - 1) / 2 == Pow2(k - 1) - 1 && (Pow2(k) - 1) % 2 == 1;
      OrOnes(a / 2, k - 1);
    }
  }

  lemma {:induction false} BytesOfOnes(n: nat, j: nat)
    requires j < n
    ensures ByteOf(Pow256(n) - 1, j) == 255
  {
    assert (Pow256(n) - 1) / 256 == Pow256(n - 1) - 1 && (Pow256(n) - 1) % 256 == 255;
    if j != 0 {
      BytesOfOnes(n - 1, j - 1);
    }
  }

  /** The end of file as the second character. */
  lemma EofDecodes(c1: int)
    requires -1 <= c1 < 256
    ensures DecodePair(c1, EOF) == TWO64 - 1
  {
    hide Or;
    Pow2Of64();
    OrOnes(ToHex(c1) * 16 % TWO64, 64);
  }

  ghost predicate Overwritten(m: Mem, r: Mem, a: int) {
    |r| == |m| && forall k :: 0 <= k < |r| ==> r[k] == if a <= k < a + 8 then 255 else m[k]
  }

  lemma PatchOnes(m: Mem, a: nat)
    requires a + 8 <= |m|
    ensures Overwritten(m, PatchLow(m, a, TWO64 - 1), a)
  {
    hide Or, Load, ByteOf;
    assert Pow256(8) == TWO64;
    Pow2Of64();
    var code, r := Load(m, a, 8), PatchLow(m, a, TWO64 - 1);
    OrOnes(code - code % 256, 64);
    assert r == Store(m, a, 8, TWO64 - 1);
    forall k | 0 <= k < |r| ensures r[k] == if a <= k < a + 8 then 255 else m[k] {
      if a <= k < a + 8 {
        BytesOfOnes(8, k - a);
      }
    }
  }

  /** When the stream has run out, or has a single character left, the end of file decodes to all
      ones: the trap then overwrites all eight bytes with 0xff, and the process is put back onto
      them. */
  lemma StreamRunsOut<R>(p: Program<R>, chars: seq<Byte>, t: Tracing<R>)
    requires |t.mem| == |p.text| && Mapped(p, t.regs.rip) && t.at + 1 >= |chars|
    ensures var r := Serve(p, chars, t);
      && r == t.(mem := r.mem, at := t.at + 2, traps := t.traps + 1)
      && Overwritten(t.mem, r.mem, t.regs.rip - p.base)
  {
    EofDecodes(CharAt(chars, t.at));
    PatchOnes(t.mem, t.regs.rip - p.base);
    hide PatchLow, DecodePair, Overwritten;
  }

  /** One instruction, or one trap and the tracer's answer. */
  function Event<R>(p: Program<R>, chars: seq<Byte>, t: Tracing<R>): (r: Tracing<R>)
    requires |t.mem| == |p.text|
    ensures |r.mem| == |p.text|
  {
    if t.gone then t
    else match CpuStep(p, t.mem, t.regs)
      case Stepped(next) => t.(regs := next, visited := t.visited + [t.regs])
      case Exited => t.(visited := t.visited + [t.regs], gone := true)
      case Trapped(_) => Serve(p, chars, t)
  }

  function Events<R>(p: Program<R>, chars: seq<Byte>, t: Tracing<R>, e: nat): (r: Tracing<R>)
    requires |t.mem| == |p.text|
    ensures |r.mem| == |p.text|
    decreases e
  {
    if e == 0 then t else Events(p, chars, Event(p, chars, t), e - 1)
  }

  // ----- the traced process follows the original program -----

  /** The process has completed the first |visited| native steps and is at the state after them,
      or has exited as the original does. */
  ghost predicate OnRun<R>(p: Program<R>, t: Tracing<R>) {
    && IsNativePath(p, p.entry, 0, t.visited)
    && Native(p, p.entry, |t.visited|) == if t.gone then Exit else Next(t.regs)
  }

  ghost predicate AllInText<R>(p: Program<R>, sites: set<int>) {
    forall a :: a in sites ==> InText(p, a)
  }

  /** After k steps, the sites in left are still trapped, every other one has been served once,
      and the stream goes on with what the steps up to the horizon n ask for. */
  ghost predicate Owes<R>(
    p: Program<R>, sites: set<int>, left: set<int>, n: nat, chars: seq<Byte>, k: nat, at: nat, traps: nat)
  {
    && k <= n && left <= sites && |left| + traps == |sites| && AllInText(p, left)
    && at == 2 * traps <= |chars| && Demand(p, k, n - k, left) <= chars[at..]
    && traps + |FirstUses(p, p.entry, k, n - k, left)| == |FirstUses(p, p.entry, 0, n, sites)|
    && Served(p, sites, left, k)
  }

  /** Served are the sites executed in the first k steps, and perhaps the one that step k is at. */
  ghost predicate Served<R>(p: Program<R>, sites: set<int>, left: set<int>, k: nat) {
    && (forall i: nat, a :: i < k && UsesAt(p, p.entry, i, a) ==> a !in left)
    && (forall a :: a in sites && a !in left ==> exists i: nat :: i <= k && UsesAt(p, p.entry, i, a))
  }

  lemma ServedOne<R>(p: Program<R>, sites: set<int>, left: set<int>, k: nat, a: int)
    requires Served(p, sites, left, k) && UsesAt(p, p.entry, k, a)
    ensures Served(p, sites, left - {a}, k)
    ensures a !in left ==> Served(p, sites, left, k + 1)
  {
    hide Native;
    assert forall i: nat, b :: i <= k && UsesAt(p, p.entry, i, b) ==> i < k || b == a;
    forall b | b in sites && b !in left ensures exists i: nat :: i <= k + 1 && UsesAt(p, p.entry, i, b) {
      var i: nat :| i <= k && UsesAt(p, p.entry, i, b);
      assert i <= k + 1;
    }
  }

  ghost predicate Tracks<R>(
    p: Program<R>, sites: set<int>, left: set<int>, n: nat, chars: seq<Byte>, t: Tracing<R>)
  {
    && OnRun(p, t) && TrappedAt(p, t.mem, left)
    && Owes(p, sites, left, n, chars, |t.visited|, t.at, t.traps)
  }

  /** A step at an address that is not trapped asks for nothing. */
  lemma OwesAfterStep<R>(
    p: Program<R>, sites: set<int>, left: set<int>, n: nat, chars: seq<Byte>, k: nat, at: nat, traps: nat)
    requires Owes(p, sites, left, n, chars, k, at, traps) && k < n
    requires Native(p, p.entry, k).Next? && Native(p, p.entry, k).regs.rip !in left
    ensures Owes(p, sites, left, n, chars, k + 1, at, traps)
  {
    ServedOne(p, sites, left, k, Native(p, p.entry, k).regs.rip);
    hide Native, HexText, AllInText, Served;
    assert n - (k + 1) == n - k - 1;
  }

  /** A trap at a site that is left: the stream has the text of its opcode next. */
  lemma OwesAfterTrap<R>(
    p: Program<R>, sites: set<int>, left: set<int>, n: nat, chars: seq<Byte>, k: nat, at: nat, traps: nat, a: int)
    requires Owes(p, sites, left, n, chars, k, at, traps) && k < n && a in left
    requires Native(p, p.entry, k).Next? && Native(p, p.entry, k).regs.rip == a
    ensures InText(p, a) && at + 2 <= |chars|
    ensures var b := p.text[a - p.base]; chars[at] == HexDigit(b / 16) && chars[at + 1] == HexDigit(b % 16)
    ensures Owes(p, sites, left - {a}, n, chars, k, at + 2, traps + 1)
  {
    FirstUsesAgain(p, k, n - k, left);
    ServedOne(p, sites, left, k, a);
    hide Native, FirstUses, HexDigit, HexText, Served;
    var rest := FirstUses(p, p.entry, k, n - k, left - {a});
    FirstUsesAreSites(p, p.entry, k, n - k, left - {a});
    forall i | 0 <= i < |rest| ensures InText(p, rest[i]) {
      assert rest[i] in rest;
    }
    DemandFirst(p, rest, a);
    assert chars[at..][0] == chars[at] && chars[at..][1] == chars[at + 1];
    assert chars[at..][2..] == chars[at + 2..];
  }

  lemma RunAfterStep<R(!new)>(p: Program<R>, sites: set<int>, chars: seq<Byte>, t: Tracing<R>)
    requires ReadsOwnBytes(p) && AllAligned(p, p.entry, sites) && PatchedAt(p, t.mem, sites)
    requires OnRun(p, t) && !t.gone && !CpuStep(p, t.mem, t.regs).Trapped?
    ensures OnRun(p, Event(p, chars, t))
    ensures Event(p, chars, t).(regs := t.regs, visited := t.visited, gone := false) == t
    ensures |Event(p, chars, t).visited| == |t.visited| + 1
  {
    StepAgrees(p, t.mem, sites, p.entry, |t.visited|);
    hide ReadsOwnBytes, AllAligned, PatchedAt, Native;
    PathJoins(p, p.entry, t.visited, [t.regs]);
  }

  /** An instruction at an address that is not trapped. */
  lemma StepTracks<R(!new)>(
    p: Program<R>, sites: set<int>, left: set<int>, n: nat, chars: seq<Byte>, t: Tracing<R>)
    requires ReadsOwnBytes(p) && AllAligned(p, p.entry, sites)
    requires Tracks(p, sites, left, n, chars, t) && !t.gone && |t.visited| < n
    requires !CpuStep(p, t.mem, t.regs).Trapped?
    ensures Tracks(p, sites, left, n, chars, Event(p, chars, t))
    ensures Event(p, chars, t).traps == t.traps && |Event(p, chars, t).visited| == |t.visited| + 1
  {
    assert AllAligned(p, p.entry, left);
    assert PatchedAt(p, t.mem, left);
    SitesTrap(p, t.mem, left);
    hide ReadsOwnBytes, AllAligned, PatchedAt, TrappedAt, Native, Owes, IsNativePath;
    OwesAfterStep(p, sites, left, n, chars, |t.visited|, t.at, t.traps);
    hide CpuStep;
    RunAfterStep(p, left, chars, t);
    hide Event, OnRun;
  }

  /** Two characters that are the text of the original byte put it back. */
  lemma Restores<R>(p: Program<R>, chars: seq<Byte>, t: Tracing<R>, b: Byte)
    requires |t.mem| == |p.text| && Mapped(p, t.regs.rip) && t.at + 2 <= |chars|
    requires chars[t.at] == HexDigit(b / 16) && chars[t.at + 1] == HexDigit(b % 16)
    ensures Serve(p, chars, t) == t.(mem := t.mem[t.regs.rip - p.base := b], at := t.at + 2, traps := t.traps + 1)
  {
    hide HexDigit, DecodePair, PatchLow;
    DecodesByte(b);
    PatchIsByteUpdate(t.mem, t.regs.rip - p.base, b);
  }

  /** A trap is at a site that is left, and its opcode is put back. */
  lemma TrapTracks<R(!new)>(
    p: Program<R>, sites: set<int>, left: set<int>, n: nat, chars: seq<Byte>, t: Tracing<R>)
    requires NoOwnTraps(p) && Tracks(p, sites, left, n, chars, t) && !t.gone && |t.visited| < n
    requires CpuStep(p, t.mem, t.regs).Trapped?
    ensures t.regs.rip in left && InText(p, t.regs.rip)
    ensures var a := t.regs.rip - p.base;
      Event(p, chars, t) == t.(mem := t.mem[a := p.text[a]], at := t.at + 2, traps := t.traps + 1)
    ensures Tracks(p, sites, left - {t.regs.rip}, n, chars, Event(p, chars, t))
  {
    var a := t.regs.rip;
    assert p.base + (a - p.base) in left;
    assert Mapped(p, a);
    PatchOne(p, t.mem, left, a);
    hide FirstUses, Native, HexDigit, Serve, IsNativePath, TrappedAt, NoOwnTraps, Owes;
    OwesAfterTrap(p, sites, left, n, chars, |t.visited|, t.at, t.traps, a);
    Restores(p, chars, t, p.text[a - p.base]);
  }

  /** Every event keeps the traced process on the original run, and is one native step or one
      trap at a site not met before. */
  lemma EventTracks<R(!new)>(
    p: Program<R>, sites: set<int>, left: set<int>, n: nat, chars: seq<Byte>, t: Tracing<R>)
    returns (left': set<int>)
    requires ReadsOwnBytes(p) && AllAligned(p, p.entry, sites) && NoOwnTraps(p)
    requires Tracks(p, sites, left, n, chars, t) && !t.gone && |t.visited| < n
    ensures var r := Event(p, chars, t);
      && Tracks(p, sites, left', n, chars, r) && left' <= left
      && |r.visited| + r.traps == |t.visited| + t.traps + 1
  {
    if CpuStep(p, t.mem, t.regs).Trapped? {
      TrapTracks(p, sites, left, n, chars, t);
      left' := left - {t.regs.rip};
    } else {
      StepTracks(p, sites, left, n, chars, t);
      left' := left;
    }
  }

  lemma StillRunning<R>(
    p: Program<R>, sites: set<int>, left: set<int>, n: nat, chars: seq<Byte>, t: Tracing<R>, e: nat)
    requires Tracks(p, sites, left, n, chars, t) && !t.gone && e > 0
    requires |t.visited| + e <= n || Native(p, p.entry, n) == Exit
    ensures |t.visited| < n
  {
    hide IsNativePath, TrappedAt, Demand, FirstUses, Served;
  }

  lemma VisitedGrows<R>(p: Program<R>, chars: seq<Byte>, t: Tracing<R>)
    requires |t.mem| == |p.text|
    ensures |Event(p, chars, t).visited| <= |t.visited| + 1
  {
    hide PatchLow, DecodePair;
  }

  lemma TrackOne<R(!new)>(
    p: Program<R>, sites: set<int>, left: set<int>, n: nat, chars: seq<Byte>, t: Tracing<R>, e: nat)
    returns (left': set<int>)
    requires ReadsOwnBytes(p) && AllAligned(p, p.entry, sites) && NoOwnTraps(p) && !t.gone && e > 0
    requires Tracks(p, sites, left, n, chars, t) && (|t.visited| + e <= n || Native(p, p.entry, n) == Exit)
    ensures |t.mem| == |p.text|
    ensures var r := Event(p, chars, t);
      && Tracks(p, sites, left', n, chars, r) && (|r.visited| + (e - 1) <= n || Native(p, p.entry, n) == Exit)
      && |r.visited| + r.traps == |t.visited| + t.traps + 1
  {
    hide ReadsOwnBytes, AllAligned, NoOwnTraps, Tracks, Event, Native;
    TextLength(p, sites, left, n, chars, t);
    StillRunning(p, sites, left, n, chars, t, e);
    left' := EventTracks(p, sites, left, n, chars, t);
    VisitedGrows(p, chars, t);
  }

  lemma TextLength<R>(
    p: Program<R>, sites: set<int>, left: set<int>, n: nat, chars: seq<Byte>, t: Tracing<R>)
    requires Tracks(p, sites, left, n, chars, t)
    ensures |t.mem| == |p.text|
  {
  }

  lemma EventsUnfold<R>(p: Program<R>, chars: seq<Byte>, t: Tracing<R>, e: nat)
    requires |t.mem| == |p.text|
    ensures Events(p, chars, t, e) == if e == 0 then t else Events(p, chars, Event(p, chars, t), e - 1)
  {
  }

  /** Any number of events from a tracked state, within the horizon or to the exit. */
  lemma {:induction false} EventsTrack<R(!new)>(
    p: Program<R>, sites: set<int>, left: set<int>, n: nat, chars: seq<Byte>, t: Tracing<R>, e: nat)
    returns (left': set<int>)
    requires ReadsOwnBytes(p) && AllAligned(p, p.entry, sites) && NoOwnTraps(p)
    requires Tracks(p, sites, left, n, chars, t) && (|t.visited| + e <= n || Native(p, p.entry, n) == Exit)
    ensures var r := Events(p, chars, t, e);
      && Tracks(p, sites, left', n, chars, r)
      && (!r.gone ==> |r.visited| + r.traps == |t.visited| + t.traps + e)
    decreases e
  {
    hide ReadsOwnBytes, AllAligned, NoOwnTraps, Tracks, Event, Native, Events;
    TextLength(p, sites, left, n, chars, t);
    EventsUnfold(p, chars, t, e);
    left' := left;
    if t.gone {
      GoneStays(p, chars, t, e);
    } else if e != 0 {
      left' := TrackOne(p, sites, left, n, chars, t, e);
      left' := EventsTrack(p, sites, left', n, chars, Event(p, chars, t), e - 1);
    }
  }

  /** The traced program, whether it exits or not: if the stream begins with the opcodes that the
      first n native steps ask for, then after any number of events within n - and any number at
      all if the original exits by step n - the process has gone through exactly the first native
      states, with one trap for each site that is served, and the served sites are those met. */
  lemma Simulates<R(!new)>(p: Program<R>, mem: Mem, sites: set<int>, chars: seq<Byte>, n: nat, e: nat)
    returns (left: set<int>)
    requires ReadsOwnBytes(p) && AllAligned(p, p.entry, sites) && NoOwnTraps(p) && TrappedAt(p, mem, sites)
    requires AllInText(p, sites) && Demand(p, 0, n, sites) <= chars
    requires e <= n || Native(p, p.entry, n) == Exit
    ensures |mem| == |p.text|
    ensures var t := Events(p, chars, Begin(p, mem), e);
      && IsNativePath(p, p.entry, 0, t.visited)
      && Native(p, p.entry, |t.visited|) == (if t.gone then Exit else Next(t.regs))
      && TrappedAt(p, t.mem, left) && left <= sites && |left| + t.traps == |sites| && t.at == 2 * t.traps
      && Served(p, sites, left, |t.visited|)
      && (!t.gone ==> |t.visited| + t.traps == e)
  {
    assert chars[0..] == chars;
    assert Tracks(p, sites, sites, n, chars, Begin(p, mem));
    hide ReadsOwnBytes, AllAligned, NoOwnTraps, Events;
    left := EventsTrack(p, sites, sites, n, chars, Begin(p, mem), e);
  }

  /** If the original exits after n steps, the traced process is gone after so many events, having
      completed all of the native run, with one trap for each site the original executes; those
      sites, and no others, hold their opcodes again. */
  lemma ExitsAlike<R(!new)>(p: Program<R>, mem: Mem, sites: set<int>, chars: seq<Byte>, n: nat)
    returns (left: set<int>)
    requires ReadsOwnBytes(p) && AllAligned(p, p.entry, sites) && NoOwnTraps(p) && TrappedAt(p, mem, sites)
    requires AllInText(p, sites) && Demand(p, 0, n, sites) <= chars && Native(p, p.entry, n) == Exit
    ensures |mem| == |p.text|
    ensures var t := Events(p, chars, Begin(p, mem), n + |sites|);
      && t.gone
      && IsNativePath(p, p.entry, 0, t.visited) && Native(p, p.entry, |t.visited|) == Exit
      && t.traps == |FirstUses(p, p.entry, 0, n, sites)|
      && |left| + t.traps == |sites| && TrappedAt(p, t.mem, left)
      && forall a :: a in left <==> a in sites && a !in FirstUses(p, p.entry, 0, n, sites)
  {
    assert chars[0..] == chars;
    assert Tracks(p, sites, sites, n, chars, Begin(p, mem));
    var e := n + |sites|;
    left := EventsTrack(p, sites, sites, n, chars, Begin(p, mem), e);
    hide ReadsOwnBytes, AllAligned, NoOwnTraps, Events, TrappedAt;
    var t := Events(p, chars, Begin(p, mem), e);
    assert t.gone;
    AllServed(p, sites, left, n, |t.visited|);
  }

  /** At the exit nothing is asked for any more, and the served sites are the executed ones. */
  lemma AllServed<R>(p: Program<R>, sites: set<int>, left: set<int>, n: nat, k: nat)
    requires Native(p, p.entry, k) == Exit && k <= n && Served(p, sites, left, k) && left <= sites
    ensures FirstUses(p, p.entry, k, n - k, left) == []
    ensures forall a :: a in left <==> a in sites && a !in FirstUses(p, p.entry, 0, n, sites)
  {
    FirstUsesExact(p, p.entry, 0, n, sites);
    forall i: nat, a | UsesAt(p, p.entry, i, a) ensures i < k {
      if i >= k {
        ExitIsFinal(p, p.entry, k, i - k);
      }
    }
  }

  // ----- the tracer -----

  /** One stop: if the byte below rip is 0xcc, the word there gets the byte that two characters
      write as its low byte, and rip steps back onto it. */
  method Untrap<R>(p: Program<R>, mem: array<Byte>, regs: Regs<R>, c1: int, c2: int)
    returns (hit: bool, r: Regs<R>)
    requires mem.Length == |p.text|
    requires -TWO64 <= c1 < TWO64 && -TWO64 <= c2 < TWO64
    modifies mem
    ensures hit == (Mapped(p, regs.rip - 1) && old(mem[..])[regs.rip - 1 - p.base] == INT3)
    ensures !hit ==> r == regs && mem[..] == old(mem[..])
    ensures hit ==> r == regs.(rip := regs.rip - 1)
    ensures hit ==> mem[..] == PatchLow(old(mem[..]), regs.rip - 1 - p.base, DecodePair(c1, c2))
  {
    r := regs.(rip := regs.rip - 1);
    if !Mapped(p, r.rip) {
      return false, regs;
    }
    var k := r.rip - p.base;
    PatchIsByteUpdate(mem[..], k, INT3);
    var code := Load(mem[..], k, 8);
    if code % 256 != INT3 {
      return false, regs;
    }
    StoreBytes(mem, k, WithLow(code, DecodePair(c1, c2)));
    return true, r;
  }

  /** The events up to a stop. */
  ghost predicate StopOf<R>(p: Program<R>, chars: seq<Byte>, t: Tracing<R>, e: nat, stop: Stop<R>)
    requires |t.mem| == |p.text|
  {
    match stop
    case Busy => false
    case AtExit(path) =>
      var r := Events(p, chars, t, e);
      r.gone && r.mem == t.mem && r.traps == t.traps && r.visited == t.visited + path
    case AtTrap(regs, path) =>
      && |path| < e
      && TrapsThere(p, t.mem, regs)
      && Events(p, chars, t, e) ==
         Events(p, chars, Serve(p, chars, t.(regs := regs.(rip := regs.rip - 1), visited := t.visited + path)),
                e - |path| - 1)
  }

  predicate TrapsThere<R>(p: Program<R>, mem: Mem, regs: Regs<R>)
    requires |mem| == |p.text|
  {
    InText(p, regs.rip - 1) && mem[regs.rip - 1 - p.base] == INT3
  }

  lemma {:induction false} GoneStays<R>(p: Program<R>, chars: seq<Byte>, t: Tracing<R>, e: nat)
    requires |t.mem| == |p.text| && t.gone
    ensures Events(p, chars, t, e) == t
    decreases e
  {
    if e != 0 {
      GoneStays(p, chars, t, e - 1);
    }
  }

  /** A process that is gone after e events has its next stop among them. */
  lemma {:induction false} EventsToStop<R>(p: Program<R>, chars: seq<Byte>, t: Tracing<R>, e: nat)
    requires |t.mem| == |p.text| && !t.gone && Events(p, chars, t, e).gone
    ensures StopOf(p, chars, t, e, RunToStop(p, t.mem, t.regs, e))
    decreases e
  {
    var r := Event(p, chars, t);
    match CpuStep(p, t.mem, t.regs)
    case Stepped(next) =>
      EventsToStop(p, chars, r, e - 1);
      StepBefore(p, chars, t, e, RunToStop(p, t.mem, next, e - 1));
    case Exited => GoneStays(p, chars, r, e - 1);
    case Trapped(_) => TrapBefore(p, chars, t, e);
  }

  lemma TrapBefore<R>(p: Program<R>, chars: seq<Byte>, t: Tracing<R>, e: nat)
    requires |t.mem| == |p.text| && !t.gone && e > 0 && CpuStep(p, t.mem, t.regs).Trapped?
    ensures StopOf(p, chars, t, e, AtTrap(t.regs.(rip := t.regs.rip + 1), []))
  {
    hide Serve;
    var regs := t.regs.(rip := t.regs.rip + 1);
    assert regs.(rip := regs.rip - 1) == t.regs && t.visited + [] == t.visited;
    assert t.(regs := regs.(rip := regs.rip - 1), visited := t.visited + []) == t;
  }

  lemma StepBefore<R>(p: Program<R>, chars: seq<Byte>, t: Tracing<R>, e: nat, stop: Stop<R>)
    requires |t.mem| == |p.text| && !t.gone && e > 0 && CpuStep(p, t.mem, t.regs).Stepped?
    requires StopOf(p, chars, Event(p, chars, t), e - 1, stop)
    ensures StopOf(p, chars, t, e, After(t.regs, stop))
  {
    hide Serve;
    var r := Event(p, chars, t);
    assert r.visited + stop.path == t.visited + ([t.regs] + stop.path);
    if stop.AtTrap? {
      var regs := stop.regs.(rip := stop.regs.rip - 1);
      assert r.(regs := regs, visited := r.visited + stop.path)
          == t.(regs := regs, visited := t.visited + ([t.regs] + stop.path));
    }
  }

  /** The tracer's loop, for any text and any stream: it waits, puts an opcode back, and lets the
      process go on, until the process is gone, and so performs its events. */
  method Trace<R>(p: Program<R>, mem: array<Byte>, chars: seq<Byte>, ghost e: nat)
    returns (traps: nat, visited: seq<Regs<R>>)
    requires mem.Length == |p.text| && Events(p, chars, Begin(p, mem[..]), e).gone
    modifies mem
    ensures var t := Events(p, chars, Begin(p, old(mem[..])), e);
      mem[..] == t.mem && traps == t.traps && visited == t.visited
  {
    hide Events, Serve, RunToStop, StopOf, TrapsThere, PatchLow, DecodePair, CharAt, Mapped;
    traps, visited := 0, [];
    var regs, at: nat := p.entry, 0;
    ghost var left: nat := e;
    ghost var all := Events(p, chars, Begin(p, mem[..]), e);
    EventsToStop(p, chars, Tracing(mem[..], regs, at, traps, visited, false), left);
    var stop := RunUntilStop(p, mem, regs, left);
    while stop.AtTrap?
      invariant StopOf(p, chars, Tracing(mem[..], regs, at, traps, visited, false), left, stop)
      invariant Events(p, chars, Tracing(mem[..], regs, at, traps, visited, false), left) == all && all.gone
      decreases left
    {
      StopIs(p, chars, Tracing(mem[..], regs, at, traps, visited, false), left, stop);
      ghost var t := Tracing(mem[..], stop.regs.(rip := stop.regs.rip - 1), at, traps, visited + stop.path, false);
      ghost var served := Serve(p, chars, t);
      var hit;
      hit, regs := Untrap(p, mem, stop.regs, CharAt(chars, at), CharAt(chars, at + 1));
      if hit {
        traps, at := traps + 1, at + 2;
      }
      visited, left := visited + stop.path, left - |stop.path| - 1;
      Answers(p, chars, t, stop.regs, hit, mem[..], regs, at, traps, visited);
      EventsToStop(p, chars, served, left);
      stop := RunUntilStop(p, mem, regs, left);
    }
    StopIs(p, chars, Tracing(mem[..], regs, at, traps, visited, false), left, stop);
    visited := visited + stop.path;
  }

  lemma StopIs<R>(p: Program<R>, chars: seq<Byte>, t: Tracing<R>, e: nat, stop: Stop<R>)
    requires |t.mem| == |p.text| && StopOf(p, chars, t, e, stop)
    ensures !stop.Busy?
    ensures stop.AtExit? ==>
      var r := Events(p, chars, t, e); r.mem == t.mem && r.traps == t.traps && r.visited == t.visited + stop.path
    ensures stop.AtTrap? ==>
      var u := t.(regs := stop.regs.(rip := stop.regs.rip - 1), visited := t.visited + stop.path);
      && |stop.path| < e && TrapsThere(p, t.mem, stop.regs)
      && Events(p, chars, t, e) == Events(p, chars, Serve(p, chars, u), e - |stop.path| - 1)
  {
    hide Events, Serve;
  }

  /** What the loop's body did is what Serve says. */
  lemma Answers<R>(p: Program<R>, chars: seq<Byte>, t: Tracing<R>, stopped: Regs<R>, hit: bool,
                   mem: Mem, regs: Regs<R>, at: nat, traps: nat, visited: seq<Regs<R>>)
    requires |t.mem| == |p.text| == |mem| && !t.gone && t.regs == stopped.(rip := stopped.rip - 1)
    requires TrapsThere(p, t.mem, stopped) && visited == t.visited
    requires hit == (Mapped(p, t.regs.rip) && t.mem[t.regs.rip - p.base] == INT3)
    requires hit ==> regs == t.regs && at == t.at + 2 && traps == t.traps + 1
    requires hit ==>
      mem == PatchLow(t.mem, t.regs.rip - p.base, DecodePair(CharAt(chars, t.at), CharAt(chars, t.at + 1)))
    requires !hit ==> regs == stopped && at == t.at && traps == t.traps && mem == t.mem
    ensures Tracing(mem, regs, at, traps, visited, false) == Serve(p, chars, t)
  {
    hide PatchLow, DecodePair;
  }
}
