/** What every command keeps true of the list, the session state and the tracee's text. */
module ImageInvariant {
  import opened Words
  import opened Tracee
  import opened Sessions

  ghost function Sites(bps: seq<Breakpoint>): (r: set<int>)
    ensures forall a :: a in r <==> Listed(bps, a)
  {
    set i | 0 <= i < |bps| :: bps[i].addr
  }

  ghost predicate ListedBefore(bps: seq<Breakpoint>, n: nat, a: int)
    requires n <= |bps|
  {
    exists i :: 0 <= i < n && bps[i].addr == a
  }

  /** Entry i: its word is mapped, and the word it saved has the original first byte, which is
      not 0xcc, and elsewhere original bytes or the 0xcc of entries listed before it. */
  ghost predicate SavedOk<R>(p: Program<R>, bps: seq<Breakpoint>, i: nat)
    requires i < |bps|
  {
    var b := bps[i];
    && b.addr != 0 && Mapped(p, b.addr)
    && ByteOf(b.orig, 0) == p.text[b.addr - p.base] != INT3
    && forall j :: 0 < j < 8 ==>
         ByteOf(b.orig, j) == p.text[b.addr + j - p.base] ||
         (ByteOf(b.orig, j) == INT3 && ListedBefore(bps, i, b.addr + j))
  }

  ghost predicate ListInv<R>(p: Program<R>, bps: seq<Breakpoint>) {
    && (forall i :: 0 <= i < |bps| ==> SavedOk(p, bps, i))
    && (forall i, j :: 0 <= i < j < |bps| ==> bps[i].addr != bps[j].addr)
  }

  ghost predicate Image<R>(p: Program<R>, s: Session<R>) {
    PatchedAt(p, s.mem, Sites(s.bps))
  }

  ghost predicate Inv<R>(p: Program<R>, s: Session<R>) {
    && |s.mem| == |p.text|
    && ListInv(p, s.bps)
    && (s.phase == Running <==> s.pid != 0)
    && (s.phase == Running ==> Image(p, s))
  }

  lemma InvCanRearm<R>(p: Program<R>, s: Session<R>)
    requires |s.mem| == |p.text| && ListInv(p, s.bps)
    ensures CanRearm(p, s)
  {
    forall i | 0 <= i < |s.bps| ensures Mapped(p, s.bps[i].addr) {
      assert SavedOk(p, s.bps, i);
    }
  }

  /** What is said of entry i depends only on the list up to i. */
  lemma SavedOkPrefix<R>(p: Program<R>, bps: seq<Breakpoint>, longer: seq<Breakpoint>, i: nat)
    requires i < |bps| <= |longer| && bps == longer[..|bps|]
    ensures SavedOk(p, bps, i) <==> SavedOk(p, longer, i)
  {
    assert bps[i] == longer[i];
    forall a ensures ListedBefore(bps, i, a) <==> ListedBefore(longer, i, a) {
      assert forall m :: 0 <= m < i ==> bps[m] == longer[m];
    }
  }

  /** A listed address never held 0xcc in the original text. */
  lemma ListedIsNotInt3<R>(p: Program<R>, bps: seq<Breakpoint>, a: int)
    requires ListInv(p, bps) && Listed(bps, a)
    ensures InText(p, a) && p.text[a - p.base] != INT3
  {
    var i :| 0 <= i < |bps| && bps[i].addr == a;
    assert SavedOk(p, bps, i);
  }

  // ----- writing one word -----

  /** Writing back the saved word of a listed breakpoint keeps the image, and leaves the
      original byte at the breakpoint. */
  lemma PokeSaved<R>(p: Program<R>, s: Session<R>, i: nat)
    requires |s.mem| == |p.text| && ListInv(p, s.bps) && Image(p, s) && i < |s.bps|
    ensures Mapped(p, s.bps[i].addr)
    ensures Image(p, Poke(p, s, s.bps[i].addr, s.bps[i].orig))
    ensures var a := s.bps[i].addr - p.base;
      Poke(p, s, s.bps[i].addr, s.bps[i].orig).mem[a] == p.text[a]
  {
    assert SavedOk(p, s.bps, i);
    var b := s.bps[i];
    var r := Poke(p, s, b.addr, b.orig);
    forall k | 0 <= k < |r.mem|
      ensures r.mem[k] == p.text[k] || (r.mem[k] == INT3 && p.base + k in Sites(s.bps))
    {
      var j := k - (b.addr - p.base);
      if 0 < j < 8 {
        assert r.mem[k] == ByteOf(b.orig, j);
        assert b.addr + j - p.base == k;
      }
    }
  }

  /** bp: nothing, or exactly one byte becomes 0xcc; a new entry saves the word it found. */
  lemma BreakEffect<R>(p: Program<R>, s: Session<R>, a: int)
    requires |s.mem| == |p.text| && s.phase == Running && a != 0 && Mapped(p, a)
    ensures var r := Break(p, s, a); var k := a - p.base;
      && r.mem == s.mem[k := INT3]
      && (s.mem[k] == INT3 ==> r == s)
      && r.(mem := s.mem, bps := s.bps) == s
      && r.bps == if s.mem[k] == INT3 || Listed(s.bps, a) then s.bps
                  else s.bps + [Breakpoint(|s.bps|, a, Peek(p, s, a))]
  {
    PatchIsByteUpdate(s.mem, a - p.base, INT3);
    assert s.mem[a - p.base] == INT3 ==> s.mem[a - p.base := INT3] == s.mem;
  }

  /** The bytes of a word read from a patched text. */
  lemma PeekedBytes<R>(p: Program<R>, s: Session<R>, a: int)
    requires |s.mem| == |p.text| && Mapped(p, a)
    ensures forall j :: 0 <= j < 8 ==> ByteOf(Peek(p, s, a), j) == s.mem[a + j - p.base]
  {
    forall j | 0 <= j < 8 ensures ByteOf(Peek(p, s, a), j) == s.mem[a + j - p.base] {
      DecodedByte(s.mem[a - p.base..a - p.base + 8], j);
    }
  }

  lemma NewEntryOk<R>(p: Program<R>, s: Session<R>, a: int)
    requires |s.mem| == |p.text| && ListInv(p, s.bps) && Image(p, s)
    requires a != 0 && Mapped(p, a) && s.mem[a - p.base] != INT3 && !Listed(s.bps, a)
    ensures ListInv(p, s.bps + [Breakpoint(|s.bps|, a, Peek(p, s, a))])
  {
    var bps := s.bps + [Breakpoint(|s.bps|, a, Peek(p, s, a))];
    forall i | 0 <= i < |bps| ensures SavedOk(p, bps, i) {
      if i < |s.bps| {
        SavedOkPrefix(p, s.bps, bps, i);
      } else {
        LastEntryOk(p, s, a, bps);
      }
    }
  }

  lemma LastEntryOk<R>(p: Program<R>, s: Session<R>, a: int, bps: seq<Breakpoint>)
    requires |s.mem| == |p.text| && Image(p, s)
    requires a != 0 && Mapped(p, a) && s.mem[a - p.base] != INT3
    requires bps == s.bps + [Breakpoint(|s.bps|, a, Peek(p, s, a))]
    ensures SavedOk(p, bps, |s.bps|)
  {
    hide ByteOf, Peek;
    PeekedBytes(p, s, a);
    var code := Peek(p, s, a);
    assert ByteOf(code, 0) == s.mem[a + 0 - p.base];
    forall j | 0 < j < 8 && ByteOf(code, j) != p.text[a + j - p.base]
      ensures ByteOf(code, j) == INT3 && ListedBefore(bps, |s.bps|, a + j)
    {
      assert p.base + (a + j - p.base) in Sites(s.bps);
      var m :| 0 <= m < |s.bps| && s.bps[m].addr == a + j;
      assert bps[m].addr == a + j;
    }
  }

  lemma PatchedMore<R>(p: Program<R>, mem: Mem, sites: set<int>, k: nat, more: set<int>)
    requires PatchedAt(p, mem, sites) && k < |mem| && sites <= more && p.base + k in more
    ensures PatchedAt(p, mem[k := INT3], more)
  {
  }

  // ----- every command -----

  lemma BreakKeeps<R>(p: Program<R>, s: Session<R>, a: int)
    requires Inv(p, s) && BreakReturns(p, s, a)
    ensures Inv(p, Break(p, s, a))
  {
    if s.phase == Running && a != 0 {
      BreakEffect(p, s, a);
      if s.mem[a - p.base] != INT3 {
        var r := Break(p, s, a);
        if !Listed(s.bps, a) {
          NewEntryOk(p, s, a);
          forall x | x in Sites(s.bps) ensures x in Sites(r.bps) {
            var m :| 0 <= m < |s.bps| && s.bps[m].addr == x;
            assert r.bps[m].addr == x;
          }
          assert r.bps[|s.bps|].addr == a;
        }
        PatchedMore(p, s.mem, Sites(s.bps), a - p.base, Sites(r.bps));
      }
    }
  }

  ghost predicate ListedFrom(bps: seq<Breakpoint>, n: nat, a: int)
    requires n <= |bps|
  {
    exists i :: n <= i < |bps| && bps[i].addr == a
  }

  /** The bytes after re-arming from entry i: 0xcc at listed addresses above rip. */
  ghost predicate ArmedFrom<R>(p: Program<R>, s: Session<R>, i: nat, mem: Mem)
    requires i <= |s.bps|
  {
    |mem| == |s.mem| &&
    forall k :: 0 <= k < |mem| ==>
      mem[k] == if p.base + k > s.regs.rip && ListedFrom(s.bps, i, p.base + k) then INT3 else s.mem[k]
  }

  /** Re-arming changes no entry, and afterwards a listed address holds 0xcc exactly if it
      lies above rip or held it before. */
  lemma {:induction false} RearmKeeps<R>(p: Program<R>, s: Session<R>, i: nat)
    requires Inv(p, s) && s.phase == Running && CanRearm(p, s) && i <= |s.bps|
    ensures Inv(p, RearmFrom(p, s, i)) && RearmFrom(p, s, i) == s.(mem := RearmFrom(p, s, i).mem)
    ensures ArmedFrom(p, s, i, RearmFrom(p, s, i).mem)
    decreases |s.bps| - i
  {
    hide Inv, ArmedFrom, CanRearm, Break;
    if i < |s.bps| {
      var s' := RearmOne(p, s, i);
      RearmKeeps(p, s', i + 1);
      assert |s.mem| == |p.text| by { InvLength(p, s); }
      ArmedStep(p, s, i, RearmFrom(p, s', i + 1).mem);
    } else {
      NothingArmed(p, s);
    }
  }

  lemma NothingArmed<R>(p: Program<R>, s: Session<R>)
    ensures ArmedFrom(p, s, |s.bps|, s.mem)
  {
  }

  lemma InvLength<R>(p: Program<R>, s: Session<R>)
    requires Inv(p, s)
    ensures |s.mem| == |p.text|
  {
  }

  lemma RearmOne<R>(p: Program<R>, s: Session<R>, i: nat) returns (s': Session<R>)
    requires Inv(p, s) && s.phase == Running && CanRearm(p, s) && i < |s.bps|
    ensures s' == if s.bps[i].addr > s.regs.rip then Break(p, s, s.bps[i].addr) else s
    ensures Inv(p, s') && CanRearm(p, s')
    ensures Mapped(p, s.bps[i].addr)
    ensures s' == s.(mem := if s.bps[i].addr > s.regs.rip
                            then s.mem[s.bps[i].addr - p.base := INT3] else s.mem)
  {
    var a := s.bps[i].addr;
    assert SavedOk(p, s.bps, i);
    if a > s.regs.rip {
      s' := Break(p, s, a);
      BreakKeeps(p, s, a);
      BreakEffect(p, s, a);
      InvCanRearm(p, s');
    } else {
      s' := s;
    }
  }

  lemma ArmedStep<R>(p: Program<R>, s: Session<R>, i: nat, mem: Mem)
    requires |s.mem| == |p.text| && i < |s.bps| && Mapped(p, s.bps[i].addr)
    requires var a := s.bps[i].addr;
      ArmedFrom(p, s.(mem := if a > s.regs.rip then s.mem[a - p.base := INT3] else s.mem), i + 1, mem)
    ensures ArmedFrom(p, s, i, mem)
  {
    forall a ensures ListedFrom(s.bps, i, a) <==> s.bps[i].addr == a || ListedFrom(s.bps, i + 1, a) {
    }
  }

  lemma {:induction false} ScanKeeps<R>(p: Program<R>, s: Session<R>, i: nat)
    requires Inv(p, s) && s.phase == Running && CanRearm(p, s) && i <= |s.bps|
    ensures Inv(p, ScanFrom(p, s, i))
    decreases |s.bps| - i
  {
    if i < |s.bps| {
      if s.bps[i].addr == s.regs.rip - 1 {
        PokeSaved(p, s, i);
        var s' := Poke(p, s, s.bps[i].addr, s.bps[i].orig).(regs := s.regs.(rip := s.regs.rip - 1));
        ScanKeeps(p, s', i + 1);
      } else {
        ScanKeeps(p, s, i + 1);
      }
    }
  }

  lemma ChkStatKeeps<R>(p: Program<R>, s: Session<R>, stop: Stop<R>)
    requires Inv(p, s) && s.phase == Running && CanRearm(p, s)
    ensures Inv(p, ChkStat(p, s, stop))
  {
    match stop
    case AtExit(_) =>
    case AtTrap(r, _) => ScanKeeps(p, s.(regs := r), 0);
    case Busy =>
  }

  lemma ContKeeps<R>(p: Program<R>, s: Session<R>, n: nat)
    requires Inv(p, s) && CanRearm(p, s) && ContReturns(p, s, n)
    ensures Inv(p, Cont(p, s, n))
  {
    if s.phase == Running {
      RearmKeeps(p, s, 0);
      ChkStatKeeps(p, RearmFrom(p, s, 0), ContStop(p, s, n));
    }
  }

  lemma SiKeeps<R>(p: Program<R>, s: Session<R>)
    requires Inv(p, s) && CanRearm(p, s)
    ensures Inv(p, Si(p, s))
  {
    if s.phase == Running {
      RearmKeeps(p, s, 0);
      ChkStatKeeps(p, RearmFrom(p, s, 0), SingleStep(p, RearmFrom(p, s, 0).mem, s.regs));
    }
  }

  // ----- delete -----

  function Without(bps: seq<Breakpoint>, i: nat): (r: seq<Breakpoint>)
    requires i < |bps|
    ensures |r| == |bps| - 1
    ensures forall k :: 0 <= k < |r| ==> r[k] == bps[if k < i then k else k + 1]
  {
    bps[..i] + bps[i + 1..]
  }

  /** The word that b saved holds 0xcc at address a, past its own first byte. */
  predicate Imprint(b: Breakpoint, a: int) {
    0 < a - b.addr < 8 && ByteOf(b.orig, a - b.addr) == INT3
  }

  /** A word saved after entry i was planted still holds the 0xcc of entry i. */
  predicate Imprinted(bps: seq<Breakpoint>, i: int) {
    0 <= i < |bps| && exists m :: i < m < |bps| && Imprint(bps[m], bps[i].addr)
  }

  lemma WithoutLists(bps: seq<Breakpoint>, i: nat, n: nat, a: int)
    requires i < |bps| && n < |bps|
    requires forall k, m :: 0 <= k < m < |bps| ==> bps[k].addr != bps[m].addr
    ensures ListedBefore(Without(bps, i), n, a) <==>
      a != bps[i].addr && ListedBefore(bps, if n <= i then n else n + 1, a)
  {
    var r, n' := Without(bps, i), if n <= i then n else n + 1;
    if a != bps[i].addr && ListedBefore(bps, n', a) {
      var m :| 0 <= m < n' && bps[m].addr == a;
      assert r[if m < i then m else m - 1] == bps[m];
    }
    if k :| 0 <= k < n && r[k].addr == a {
      assert bps[if k < i then k else k + 1].addr == a;
    }
  }

  /** Entry m, moved to m' when entry i goes, stays sound unless its word holds i's 0xcc. */
  lemma EntrySurvives<R>(p: Program<R>, bps: seq<Breakpoint>, i: nat, m': nat)
    requires ListInv(p, bps) && i < |bps| && m' < |bps| - 1
    ensures var m := if m' < i then m' else m' + 1;
      SavedOk(p, Without(bps, i), m') <==> !(i < m && Imprint(bps[m], bps[i].addr))
  {
    var m := if m' < i then m' else m' + 1;
    var r, b, gone := Without(bps, i), bps[m], bps[i].addr;
    assert SavedOk(p, bps, m) && SavedOk(p, bps, i);
    if i < m && Imprint(b, gone) {
      WithoutLists(bps, i, m', gone);
      assert b.addr + (gone - b.addr) == gone;
    } else {
      forall j | 0 < j < 8 && ByteOf(b.orig, j) != p.text[b.addr + j - p.base]
        ensures ListedBefore(r, m', b.addr + j)
      {
        assert ListedBefore(bps, m, b.addr + j);
        WithoutLists(bps, i, m', b.addr + j);
      }
    }
  }

  /** The list that is left is sound exactly when no later word holds the 0xcc of the entry
      that goes. */
  lemma ListWithout<R>(p: Program<R>, bps: seq<Breakpoint>, i: nat)
    requires ListInv(p, bps) && i < |bps|
    ensures ListInv(p, Without(bps, i)) <==> !Imprinted(bps, i)
  {
    hide SavedOk, Imprint;
    forall m' | 0 <= m' < |bps| - 1
      ensures var m := if m' < i then m' else m' + 1;
        SavedOk(p, Without(bps, i), m') <==> !(i < m && Imprint(bps[m], bps[i].addr))
    {
      EntrySurvives(p, bps, i, m');
    }
    if m :| i < m < |bps| && Imprint(bps[m], bps[i].addr) {
      assert !SavedOk(p, Without(bps, i), m - 1);
    }
  }

  lemma StillListed(bps: seq<Breakpoint>, i: nat, m: nat)
    requires i < |bps| && m < |bps| && m != i
    ensures Listed(Without(bps, i), bps[m].addr)
  {
    assert Without(bps, i)[if m < i then m else m - 1] == bps[m];
  }

  /** Byte j of the word that entry i saved. */
  lemma SavedByte<R>(p: Program<R>, bps: seq<Breakpoint>, i: nat, j: nat)
    requires i < |bps| && SavedOk(p, bps, i) && j < 8
    ensures var b := bps[i];
      ByteOf(b.orig, j) == p.text[b.addr + j - p.base] ||
      (ByteOf(b.orig, j) == INT3 && Listed(Without(bps, i), b.addr + j))
  {
    var b := bps[i];
    if ByteOf(b.orig, j) != p.text[b.addr + j - p.base] {
      var m :| 0 <= m < i && bps[m].addr == b.addr + j;
      StillListed(bps, i, m);
    }
  }

  /** Writing back the word of entry i leaves 0xcc only at the addresses of the others. */
  lemma PokeWithout<R>(p: Program<R>, s: Session<R>, i: nat)
    requires |s.mem| == |p.text| && ListInv(p, s.bps) && Image(p, s) && i < |s.bps|
    ensures Mapped(p, s.bps[i].addr)
    ensures PatchedAt(p, Poke(p, s, s.bps[i].addr, s.bps[i].orig).mem, Sites(Without(s.bps, i)))
  {
    assert SavedOk(p, s.bps, i);
    var b := s.bps[i];
    var mem := Poke(p, s, b.addr, b.orig).mem;
    forall k | 0 <= k < |mem| && mem[k] != p.text[k]
      ensures mem[k] == INT3 && Listed(Without(s.bps, i), p.base + k)
    {
      var j := k - (b.addr - p.base);
      assert b.addr + j == p.base + k;
      if 0 <= j < 8 {
        SavedByte(p, s.bps, i, j);
      } else {
        assert p.base + k in Sites(s.bps);
        var m :| 0 <= m < |s.bps| && s.bps[m].addr == p.base + k;
        StillListed(s.bps, i, m);
      }
    }
  }

  /** What a delete that finds its id does: the entry at that index goes, its byte of the text
      is the original, and every other byte is original or at an address still listed. */
  lemma DeleteEffect<R>(p: Program<R>, s: Session<R>, id: int)
    requires Inv(p, s) && CanRearm(p, s) && s.phase == Running && HasId(s.bps, id) && DeleteDefined(s, id)
    ensures var r := Delete(p, s, id); var a := s.bps[id].addr;
      && r.bps == Without(s.bps, id) && r == s.(mem := r.mem, bps := r.bps)
      && r.mem[a - p.base] == p.text[a - p.base] && !Listed(r.bps, a) && Image(p, r)
  {
    PokeSaved(p, s, id);
    PokeWithout(p, s, id);
    assert forall k :: 0 <= k < |s.bps| - 1 ==> Without(s.bps, id)[k].addr != s.bps[id].addr;
  }

  /** delete keeps the invariant exactly when no word saved later holds the 0xcc of the entry
      it erases. */
  lemma DeleteExact<R>(p: Program<R>, s: Session<R>, id: int)
    requires Inv(p, s) && CanRearm(p, s) && s.phase == Running && DeleteDefined(s, id)
    ensures Inv(p, Delete(p, s, id)) <==> !(HasId(s.bps, id) && Imprinted(s.bps, id))
  {
    hide ListInv, Image, Imprinted;
    if HasId(s.bps, id) {
      ListWithout(p, s.bps, id);
      DeleteEffect(p, s, id);
    }
  }

  /** What goes wrong otherwise: the next time that later word is written back, 0xcc comes back
      to an address that is no longer listed, over a byte that is not 0xcc. */
  lemma DeleteDamages<R>(p: Program<R>, s: Session<R>, id: int, m: nat)
    requires Inv(p, s) && CanRearm(p, s) && s.phase == Running && HasId(s.bps, id) && DeleteDefined(s, id)
    requires id < m < |s.bps| && Imprint(s.bps[m], s.bps[id].addr)
    ensures var r := Delete(p, s, id); var a := s.bps[id].addr;
      && r.bps[m - 1] == s.bps[m] && !Listed(r.bps, a) && Mapped(p, s.bps[m].addr)
      && Poke(p, r, s.bps[m].addr, s.bps[m].orig).mem[a - p.base] == INT3 != p.text[a - p.base]
  {
    DeleteEffect(p, s, id);
    assert SavedOk(p, s.bps, m) && SavedOk(p, s.bps, id);
  }

  // ----- ids -----

  /** Every id is the entry's index. */
  predicate Numbered(bps: seq<Breakpoint>) {
    forall i :: 0 <= i < |bps| ==> bps[i].id == i
  }

  /** The deletes that are last-in-first-out: of the last entry, or of an id that is not there. */
  predicate LastOrNone<R>(s: Session<R>, id: int) {
    id < 0 || id >= |s.bps| - 1
  }

  /** While ids are indexes a delete is always defined and erases the entry that has the id;
      they still are afterwards exactly when that was the last entry or there was none. */
  lemma DeleteNumbers<R>(p: Program<R>, s: Session<R>, id: int)
    requires CanRearm(p, s) && s.phase == Running && Numbered(s.bps)
    ensures DeleteDefined(s, id) && (HasId(s.bps, id) ==> s.bps[id].id == id)
    ensures Numbered(Delete(p, s, id).bps) <==> LastOrNone(s, id)
    ensures LastOrNone(s, id) ==> !(HasId(s.bps, id) && Imprinted(s.bps, id))
  {
    if 0 <= id < |s.bps| {
      assert s.bps[id].id == id;
      var r := Delete(p, s, id);
      assert r.bps == Without(s.bps, id);
      if id < |s.bps| - 1 {
        assert r.bps[id] == s.bps[id + 1];
      }
    }
  }

  /** Deleting the last entry. */
  lemma DeleteLast<R>(p: Program<R>, s: Session<R>)
    requires Inv(p, s) && s.phase == Running && CanRearm(p, s) && Numbered(s.bps) && |s.bps| > 0
    ensures DeleteDefined(s, |s.bps| - 1)
    ensures var r := Delete(p, s, |s.bps| - 1);
      && Inv(p, r) && Numbered(r.bps)
      && r.bps == s.bps[..|s.bps| - 1]
      && r == s.(mem := r.mem, bps := r.bps)
  {
    var n := |s.bps| - 1;
    assert s.bps[n].id == n;
    DeleteNumbers(p, s, n);
    DeleteExact(p, s, n);
    DeleteEffect(p, s, n);
  }
}
