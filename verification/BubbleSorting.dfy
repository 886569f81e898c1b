/** What the nested loops of bubble.asm do to a sequence of integers. */
module BubbleSorting {

  predicate OutOfOrder(a: seq<int>, j: nat)
    requires j + 1 < |a|
  {
    a[j] > a[j + 1]
  }

  /** One turn of the inner loop. */
  function CompareSwap(a: seq<int>, j: nat): (r: seq<int>)
    requires j + 1 < |a|
    ensures |r| == |a|
  {
    if OutOfOrder(a, j) then a[j := a[j + 1]][j + 1 := a[j]] else a
  }

  /** The inner loop from j up to end. */
  function Pass(a: seq<int>, j: nat, end: nat): (r: seq<int>)
    requires j <= end < |a|
    ensures |r| == |a|
    decreases end - j
  {
    if j == end then a else Pass(CompareSwap(a, j), j + 1, end)
  }

  function PassSwaps(a: seq<int>, j: nat, end: nat): nat
    requires j <= end < |a|
    decreases end - j
  {
    if j == end then 0
    else (if OutOfOrder(a, j) then 1 else 0) + PassSwaps(CompareSwap(a, j), j + 1, end)
  }

  /** The outer loop from pass i on. */
  function Passes(a: seq<int>, i: nat): (r: seq<int>)
    requires i < |a|
    ensures |r| == |a|
    decreases |a| - i
  {
    if i + 1 == |a| then a else Passes(Pass(a, 0, |a| - 1 - i), i + 1)
  }

  function Swaps(a: seq<int>, i: nat): nat
    requires i < |a|
    decreases |a| - i
  {
    if i + 1 == |a| then 0
    else PassSwaps(a, 0, |a| - 1 - i) + Swaps(Pass(a, 0, |a| - 1 - i), i + 1)
  }

  // ----- sorted, a permutation, one exchange per inversion -----

  ghost predicate Ascending(a: seq<int>) {
    forall x, y :: 0 <= x < y < |a| ==> a[x] <= a[y]
  }

  /** Elements of s below v. */
  function Below(v: int, s: seq<int>): nat {
    if s == [] then 0 else (if s[0] < v then 1 else 0) + Below(v, s[1..])
  }

  /** Pairs of positions x < y with a[x] > a[y]. */
  function Inversions(a: seq<int>): nat {
    if a == [] then 0 else Below(a[0], a[1..]) + Inversions(a[1..])
  }

  /** From position e on, every element is at least all those before it. */
  ghost predicate TopFrom(a: seq<int>, e: nat) {
    forall x, y :: 0 <= x < y < |a| && e <= y ==> a[x] <= a[y]
  }

  lemma {:induction false} PassBubblesUp(a: seq<int>, j: nat, end: nat)
    requires j <= end < |a| && TopFrom(a, end + 1)
    requires forall x :: 0 <= x < j ==> a[x] <= a[j]
    ensures TopFrom(Pass(a, j, end), end)
    decreases end - j
  {
    if j < end {
      PassBubblesUp(CompareSwap(a, j), j + 1, end);
    }
  }

  lemma {:induction false} PassesSort(a: seq<int>, i: nat)
    requires i < |a| && TopFrom(a, |a| - i)
    ensures Ascending(Passes(a, i))
    decreases |a| - i
  {
    if i + 1 < |a| {
      PassBubblesUp(a, 0, |a| - 1 - i);
      PassesSort(Pass(a, 0, |a| - 1 - i), i + 1);
    }
  }

  lemma {:induction false} PassPermutes(a: seq<int>, j: nat, end: nat)
    requires j <= end < |a|
    ensures multiset(Pass(a, j, end)) == multiset(a)
    decreases end - j
  {
    if j < end {
      PassPermutes(CompareSwap(a, j), j + 1, end);
    }
  }

  lemma {:induction false} PassesPermute(a: seq<int>, i: nat)
    requires i < |a|
    ensures multiset(Passes(a, i)) == multiset(a)
    decreases |a| - i
  {
    if i + 1 < |a| {
      PassPermutes(a, 0, |a| - 1 - i);
      PassesPermute(Pass(a, 0, |a| - 1 - i), i + 1);
    }
  }

  lemma {:induction false} BelowSwap(v: int, a: seq<int>, j: nat)
    requires j + 1 < |a|
    ensures Below(v, a[j := a[j + 1]][j + 1 := a[j]]) == Below(v, a)
    decreases j
  {
    var b := a[j := a[j + 1]][j + 1 := a[j]];
    if j == 0 {
      assert b[1..][1..] == a[1..][1..];
    } else {
      assert b[1..] == a[1..][j - 1 := a[1..][j]][j := a[1..][j - 1]];
      BelowSwap(v, a[1..], j - 1);
    }
  }

  /** Exchanging two neighbours that are out of order removes exactly one inversion. */
  lemma {:induction false} SwapRemovesOne(a: seq<int>, j: nat)
    requires j + 1 < |a| && OutOfOrder(a, j)
    ensures Inversions(a) == Inversions(CompareSwap(a, j)) + 1
    decreases j
  {
    var b := CompareSwap(a, j);
    if j == 0 {
      assert b[1..][1..] == a[1..][1..];
    } else {
      assert b[1..] == CompareSwap(a[1..], j - 1);
      SwapRemovesOne(a[1..], j - 1);
      BelowSwap(a[0], a[1..], j - 1);
    }
  }

  lemma {:induction false} PassCounts(a: seq<int>, j: nat, end: nat)
    requires j <= end < |a|
    ensures Inversions(a) == Inversions(Pass(a, j, end)) + PassSwaps(a, j, end)
    decreases end - j
  {
    if j < end {
      if OutOfOrder(a, j) {
        SwapRemovesOne(a, j);
      }
      PassCounts(CompareSwap(a, j), j + 1, end);
    }
  }

  lemma {:induction false} PassesCount(a: seq<int>, i: nat)
    requires i < |a|
    ensures Inversions(a) == Inversions(Passes(a, i)) + Swaps(a, i)
    decreases |a| - i
  {
    if i + 1 < |a| {
      PassCounts(a, 0, |a| - 1 - i);
      PassesCount(Pass(a, 0, |a| - 1 - i), i + 1);
    }
  }

  lemma {:induction false} NoneBelow(v: int, s: seq<int>)
    requires forall x :: 0 <= x < |s| ==> v <= s[x]
    ensures Below(v, s) == 0
  {
    if s != [] {
      NoneBelow(v, s[1..]);
    }
  }

  lemma {:induction false} AscendingHasNone(a: seq<int>)
    requires Ascending(a)
    ensures Inversions(a) == 0
  {
    if a != [] {
      NoneBelow(a[0], a[1..]);
      AscendingHasNone(a[1..]);
    }
  }

  /** The loops sort, permute, and exchange once for each inversion of the input. */
  lemma Sorts(a: seq<int>)
    requires a != []
    ensures Ascending(Passes(a, 0)) && multiset(Passes(a, 0)) == multiset(a)
    ensures Swaps(a, 0) == Inversions(a)
  {
    PassesSort(a, 0);
    PassesPermute(a, 0);
    PassesCount(a, 0);
    AscendingHasNone(Passes(a, 0));
  }
}
