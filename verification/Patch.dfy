/** The largest connected bright patch of a picture, by flood fill with an explicit stack. */
module Patch {
  import opened Otsu

  predicate Bright(mask: seq<Byte>, i: int) {
    0 <= i < |mask| && mask[i] != 0
  }

  /** Side by side in a row, or one above the other; the end of a row does not touch the next one's start. */
  predicate Adjacent(w: nat, i: nat, j: nat)
    requires w > 0
  {
    || (i % w == j % w && (i / w == j / w + 1 || j / w == i / w + 1))
    || (i / w == j / w && (i % w == j % w + 1 || j % w == i % w + 1))
  }

  ghost predicate Path(mask: seq<Byte>, w: nat, p: seq<nat>)
    requires w > 0
  {
    && p != []
    && (forall k :: 0 <= k < |p| ==> Bright(mask, p[k]))
    && (forall k :: 0 < k < |p| ==> Adjacent(w, p[k - 1], p[k]))
  }

  /** A walk over bright pixels leads from i to j. */
  ghost predicate Linked(mask: seq<Byte>, w: nat, i: nat, j: nat)
    requires w > 0
  {
    exists p :: Path(mask, w, p) && p[0] == i && p[|p| - 1] == j
  }

  ghost function Component(mask: seq<Byte>, w: nat, i: nat): set<nat>
    requires w > 0
  {
    set j: nat | j < |mask| && Linked(mask, w, i, j)
  }

  predicate Distinct(s: seq<nat>) {
    forall i, j :: 0 <= i < j < |s| ==> s[i] != s[j]
  }

  ghost predicate IsComponent(mask: seq<Byte>, w: nat, patch: seq<nat>)
    requires w > 0
  {
    exists s :: Bright(mask, s) && (forall j :: j in patch <==> j in Component(mask, w, s))
  }

  /** Every bright neighbour of a member is a member. */
  ghost predicate Closed(mask: seq<Byte>, w: nat, some: set<nat>)
    requires w > 0
  {
    forall i, j :: i in some && Bright(mask, j) && Adjacent(w, i, j) ==> j in some
  }

  // ------------------------------------------------------------- geometry

  lemma AtLeastOnce(k: int, w: nat)
    requires k >= 1
    ensures k * w >= w
  {
    assert k * w == (k - 1) * w + w && (k - 1) * w >= 0;
  }

  lemma OneQuotient(a: int, r: int, b: int, s: int, w: nat)
    requires 0 <= r < w && 0 <= s < w && a * w + r == b * w + s
    ensures a == b && r == s
  {
    assert (a - b) * w == a * w - b * w && (b - a) * w == b * w - a * w;
    if a > b { AtLeastOnce(a - b, w); }
    if b > a { AtLeastOnce(b - a, w); }
  }

  lemma DivModUnique(n: nat, w: nat, q: nat, r: nat)
    requires w > 0 && r < w && n == q * w + r
    ensures n / w == q && n % w == r
  {
    OneQuotient(n / w, n % w, q, r, w);
  }

  function Neighbours(i: nat, w: nat): seq<int>
    requires w > 0
  {
    [if i % w > 0 then i - 1 else -1, if i % w < w - 1 then i + 1 else -1, i - w, i + w]
  }

  lemma NeighbourIsAdjacent(i: nat, w: nat, k: nat)
    requires w > 0 && k < 4 && Neighbours(i, w)[k] >= 0
    ensures Adjacent(w, i, Neighbours(i, w)[k])
  {
    var (x, y) := (i % w, i / w);
    var n := Neighbours(i, w)[k];
    assert i == y * w + x;
    if k == 0 {
      DivModUnique(n, w, y, x - 1);
    } else if k == 1 {
      DivModUnique(n, w, y, x + 1);
    } else if k == 2 {
      RowAbove(x, y, w);
      DivModUnique(n, w, y - 1, x);
    } else {
      assert (y + 1) * w + x == y * w + x + w;
      DivModUnique(n, w, y + 1, x);
    }
  }

  lemma RowAbove(x: nat, y: nat, w: nat)
    requires y * w + x >= w > x
    ensures y >= 1 && (y - 1) * w + x == y * w + x - w
  {
  }

  lemma AdjacentIsNeighbour(i: nat, j: nat, w: nat)
    requires w > 0 && Adjacent(w, i, j)
    ensures j in Neighbours(i, w)
  {
    var (x, y, u, v) := (i % w, i / w, j % w, j / w);
    assert i == y * w + x && j == v * w + u;
    assert 0 <= u < w && 0 <= x < w;
    if x == u && y == v + 1 {
      RowBelow(v, w);
      IsNeighbour(i, w, 2, j);
    } else if x == u {
      RowBelow(y, w);
      IsNeighbour(i, w, 3, j);
    } else if x == u + 1 {
      IsNeighbour(i, w, 0, j);
    } else {
      IsNeighbour(i, w, 1, j);
    }
  }

  lemma IsNeighbour(i: nat, w: nat, k: nat, j: nat)
    requires w > 0 && k < 4
    requires match k case 0 => i % w > 0 && j == i - 1 case 1 => i % w < w - 1 && j == i + 1
             case 2 => j == i - w case _ => j == i + w
    ensures j in Neighbours(i, w)
  {
    assert Neighbours(i, w)[k] == j;
  }

  lemma RowBelow(y: nat, w: nat)
    ensures (y + 1) * w == y * w + w
  {
  }

  // ---------------------------------------------------------------- walks

  lemma LinkedSelf(mask: seq<Byte>, w: nat, i: nat)
    requires w > 0 && Bright(mask, i)
    ensures Linked(mask, w, i, i)
  {
    assert Path(mask, w, [i]);
  }

  lemma LinkedStep(mask: seq<Byte>, w: nat, s: nat, i: nat, j: nat)
    requires w > 0 && Linked(mask, w, s, i) && Adjacent(w, i, j) && Bright(mask, j)
    ensures Linked(mask, w, s, j)
  {
    var p :| Path(mask, w, p) && p[0] == s && p[|p| - 1] == i;
    assert Path(mask, w, p + [j]);
    assert (p + [j])[0] == s && (p + [j])[|p|] == j;
  }

  /** A walk cannot leave a closed set. */
  lemma {:induction false} PathStays(mask: seq<Byte>, w: nat, some: set<nat>, p: seq<nat>)
    requires w > 0 && Closed(mask, w, some) && Path(mask, w, p) && p[0] in some
    ensures p[|p| - 1] in some
  {
    if |p| > 1 {
      var q := p[..|p| - 1];
      PathStays(mask, w, some, q);
      assert Adjacent(w, p[|p| - 2], p[|p| - 1]);
    }
  }

  lemma ComponentWithin(mask: seq<Byte>, w: nat, some: set<nat>, s: nat)
    requires w > 0 && Closed(mask, w, some) && s in some
    ensures Component(mask, w, s) <= some
  {
    forall j | j in Component(mask, w, s) ensures j in some {
      var p :| Path(mask, w, p) && p[0] == s && p[|p| - 1] == j;
      PathStays(mask, w, some, p);
    }
  }

  lemma {:induction false} DistinctSize(s: seq<nat>, some: set<nat>)
    requires Distinct(s) && forall j :: j in s <==> j in some
    ensures |s| == |some|
  {
    if s == [] {
      assert some == {};
    } else {
      var n := |s| - 1;
      assert s == s[..n] + [s[n]];
      assert s[n] !in s[..n];
      DistinctSize(s[..n], some - {s[n]});
    }
  }

  lemma SmallerSet(a: set<nat>, b: set<nat>)
    requires a <= b
    ensures |a| <= |b|
  {
    assert b == a + (b - a);
  }

  // ---------------------------------------------------------------- fill

  /** While one patch is being filled: what is seen, and what is known of it. */
  ghost predicate Filling(mask: seq<Byte>, w: nat, start: nat, before: set<nat>, seen: seq<bool>, patch: seq<nat>, stack: seq<nat>)
    requires w > 0
  {
    && |seen| == |mask|
    && Distinct(patch + stack)
    && (forall j :: 0 <= j < |seen| ==> (seen[j] <==> j in before || j in patch || j in stack))
    && (forall j :: j in patch || j in stack ==> Bright(mask, j) && j !in before && Linked(mask, w, start, j))
    && (start in patch || start in stack)
  }

  /** The bright neighbours of i are all seen. */
  ghost predicate Explored(mask: seq<Byte>, w: nat, seen: seq<bool>, i: nat)
    requires w > 0 && |seen| == |mask|
  {
    forall j :: Bright(mask, j) && Adjacent(w, i, j) ==> seen[j]
  }

  /** A stack that has run empty leaves exactly the starting pixel's component. */
  lemma FilledIsComponent(mask: seq<Byte>, w: nat, start: nat, before: set<nat>, seen: seq<bool>, patch: seq<nat>)
    requires w > 0 && Closed(mask, w, before) && (forall i :: i in before ==> Bright(mask, i))
    requires Filling(mask, w, start, before, seen, patch, [])
    requires forall i :: i in patch ==> Explored(mask, w, seen, i)
    ensures Closed(mask, w, set i | i in patch)
    ensures forall j :: j in patch <==> j in Component(mask, w, start)
    ensures |patch| == |Component(mask, w, start)|
  {
    var members := set i | i in patch;
    forall i, j | i in members && Bright(mask, j) && Adjacent(w, i, j) ensures j in members {
      assert Explored(mask, w, seen, i) && seen[j];
      assert Adjacent(w, j, i);
      if j in before { assert false; }
    }
    ComponentWithin(mask, w, members, start);
    assert patch + [] == patch;
    DistinctSize(patch, Component(mask, w, start));
  }

  method Fill(mask: array<Byte>, w: nat, seen: array<bool>, start: nat, ghost before: set<nat>) returns (patch: seq<nat>)
    requires w > 0 && seen.Length == mask.Length && start < mask.Length && Bright(mask[..], start)
    requires Closed(mask[..], w, before) && forall i :: i in before ==> Bright(mask[..], i)
    requires forall i :: 0 <= i < seen.Length ==> (seen[i] <==> i in before)
    requires !seen[start]
    modifies seen
    ensures Distinct(patch) && start in patch
    ensures forall j :: j in patch <==> j in Component(mask[..], w, start)
    ensures |patch| == |Component(mask[..], w, start)|
    ensures Closed(mask[..], w, set i | i in patch)
    ensures forall i :: 0 <= i < seen.Length ==> (seen[i] <==> i in before || i in patch)
    ensures forall i :: i in patch ==> Bright(mask[..], i) && i !in before
  {
    ghost var pixels := mask[..];
    patch := [];
    var stack := [start];
    seen[start] := true;
    LinkedSelf(pixels, w, start);
    ghost var unseen := set i: nat | i < seen.Length && !seen[i];
    while stack != []
      invariant mask[..] == pixels
      invariant Filling(pixels, w, start, before, seen[..], patch, stack)
      invariant forall i :: i in patch ==> Explored(pixels, w, seen[..], i)
      invariant unseen == set i: nat | i < seen.Length && !seen[i]
      decreases |unseen|, |stack|
    {
      var i := stack[|stack| - 1];
      ghost var done := patch;
      PopStep(pixels, w, start, before, seen[..], patch, stack);
      stack := stack[..|stack| - 1];
      patch := patch + [i];
      stack, unseen := Visit(mask, w, seen, start, before, i, patch, stack, unseen);
      assert forall k :: k in patch ==> k in done || k == i;
    }
    FilledIsComponent(pixels, w, start, before, seen[..], patch);
    assert patch + [] == patch;
  }

  lemma PopStep(mask: seq<Byte>, w: nat, start: nat, before: set<nat>, seen: seq<bool>, patch: seq<nat>, stack: seq<nat>)
    requires w > 0 && stack != [] && Filling(mask, w, start, before, seen, patch, stack)
    ensures Filling(mask, w, start, before, seen, patch + [stack[|stack| - 1]], stack[..|stack| - 1])
  {
    var i := stack[|stack| - 1];
    var rest := stack[..|stack| - 1];
    assert stack == rest + [i];
    var (a, b) := (patch + stack, patch + [i] + rest);
    forall k, l | 0 <= k < l < |b| ensures b[k] != b[l] {
      var (k', l') := (Moved(k, |patch|, |stack|), Moved(l, |patch|, |stack|));
      assert b[k] == a[k'] && b[l] == a[l'] && k' != l';
    }
  }

  /** Where an element of patch + [top] + rest stood in patch + rest + [top]. */
  function Moved(k: nat, patch: nat, stack: nat): nat
    requires stack > 0
  {
    if k < patch then k else if k == patch then patch + stack - 1 else k - 1
  }

  /** Marks and stacks the bright neighbours of i not seen before. */
  method Visit(mask: array<Byte>, w: nat, seen: array<bool>, ghost start: nat, ghost before: set<nat>, i: nat,
               ghost patch: seq<nat>, stack0: seq<nat>, ghost unseen0: set<nat>)
    returns (stack: seq<nat>, ghost unseen: set<nat>)
    requires w > 0 && seen.Length == mask.Length && i in patch
    requires Filling(mask[..], w, start, before, seen[..], patch, stack0)
    requires unseen0 == set j: nat | j < seen.Length && !seen[j]
    modifies seen
    ensures Filling(mask[..], w, start, before, seen[..], patch, stack)
    ensures forall j :: 0 <= j < seen.Length && old(seen[j]) ==> seen[j]
    ensures Explored(mask[..], w, seen[..], i)
    ensures unseen == set j: nat | j < seen.Length && !seen[j]
    ensures |unseen| < |unseen0| || (unseen == unseen0 && stack == stack0)
  {
    ghost var pixels := mask[..];
    stack, unseen := stack0, unseen0;
    var neighbours := Neighbours(i, w);
    for k := 0 to 4
      invariant mask[..] == pixels
      invariant Filling(pixels, w, start, before, seen[..], patch, stack)
      invariant forall j :: 0 <= j < seen.Length && old(seen[j]) ==> seen[j]
      invariant forall l :: 0 <= l < k && Bright(pixels, neighbours[l]) ==> seen[neighbours[l]]
      invariant unseen == set j: nat | j < seen.Length && !seen[j]
      invariant |unseen| < |unseen0| || (unseen == unseen0 && stack == stack0)
    {
      var n := neighbours[k];
      if 0 <= n < mask.Length && mask[n] != 0 && !seen[n] {
        NeighbourIsAdjacent(i, w, k);
        LinkedStep(pixels, w, start, i, n);
        PushStep(pixels, w, start, before, seen[..], patch, stack, n);
        ghost var was := unseen;
        seen[n] := true;
        stack := stack + [n];
        unseen := unseen - {n};
        assert n in was;
      }
    }
    forall j | Bright(pixels, j) && Adjacent(w, i, j) ensures seen[j] {
      AdjacentIsNeighbour(i, j, w);
    }
  }

  lemma PushStep(mask: seq<Byte>, w: nat, start: nat, before: set<nat>, seen: seq<bool>, patch: seq<nat>, stack: seq<nat>, n: nat)
    requires w > 0 && Filling(mask, w, start, before, seen, patch, stack)
    requires Bright(mask, n) && !seen[n] && Linked(mask, w, start, n)
    ensures Filling(mask, w, start, before, seen[n := true], patch, stack + [n])
  {
    assert patch + (stack + [n]) == (patch + stack) + [n];
    assert n !in patch + stack;
  }

  // -------------------------------------------------------------- largest

  /** No component among these pixels is larger. */
  ghost predicate NoneLarger(mask: seq<Byte>, w: nat, some: set<nat>, size: nat)
    requires w > 0
  {
    forall s :: s in some ==> |Component(mask, w, s)| <= size
  }

  /** Every component that starts before this pixel is smaller. */
  ghost predicate SmallerBefore(mask: seq<Byte>, w: nat, first: nat, size: nat)
    requires w > 0
  {
    forall s: nat :: s < first && Bright(mask, s) ==> |Component(mask, w, s)| < size
  }

  /** The patch begins at this pixel, and the components that begin before it are smaller. */
  ghost predicate FirstOfItsSize(mask: seq<Byte>, w: nat, patch: seq<nat>)
    requires w > 0
  {
    exists first: nat :: first in patch && (forall j :: j in patch ==> first <= j) && SmallerBefore(mask, w, first, |patch|)
  }

  lemma BecomesLargest(mask: seq<Byte>, w: nat, start: nat, before: set<nat>, size: nat, patch: seq<nat>)
    requires w > 0 && start in patch && NoneLarger(mask, w, before, size) && size < |patch|
    requires forall i: nat :: i < start && Bright(mask, i) ==> i in before
    requires forall j :: j in patch ==> Bright(mask, j) && j !in before
    ensures FirstOfItsSize(mask, w, patch)
  {
    assert SmallerBefore(mask, w, start, |patch|);
    assert forall j :: j in patch ==> start <= j;
  }

  /** Of the largest components, the first. */
  method LargestPatch(mask: array<Byte>, w: nat, h: nat) returns (largest: seq<nat>)
    requires mask.Length == w * h && w > 0
    ensures Distinct(largest)
    ensures (exists s :: Bright(mask[..], s)) ==> IsComponent(mask[..], w, largest)
    ensures largest == [] <==> forall s :: !Bright(mask[..], s)
    ensures forall s: nat :: Bright(mask[..], s) ==> |Component(mask[..], w, s)| <= |largest|
    ensures largest != [] ==> FirstOfItsSize(mask[..], w, largest)
  {
    var seen := new bool[w * h](_ => false);
    ghost var pixels := mask[..];
    ghost var before: set<nat> := {};
    largest := [];
    for start := 0 to w * h
      invariant mask[..] == pixels
      invariant Closed(pixels, w, before) && forall i :: i in before ==> Bright(pixels, i)
      invariant forall i :: 0 <= i < seen.Length ==> (seen[i] <==> i in before)
      invariant forall i: nat :: i < start && Bright(pixels, i) ==> i in before
      invariant Distinct(largest)
      invariant before != {} ==> largest != [] && IsComponent(pixels, w, largest)
      invariant before == {} ==> largest == []
      invariant largest != [] ==> FirstOfItsSize(pixels, w, largest)
      invariant NoneLarger(pixels, w, before, |largest|)
    {
      if mask[start] == 0 || seen[start] {
        continue;
      }
      var patch := Fill(mask, w, seen, start, before);
      ghost var members := set i | i in patch;
      assert start in members;
      PatchCovers(pixels, w, members, patch);
      assert IsComponent(pixels, w, patch);
      if |patch| > |largest| {
        BecomesLargest(pixels, w, start, before, |largest|, patch);
        largest := patch;
      }
      before := before + members;
    }
    AllCovered(pixels, w, before, largest);
  }

  /** When every bright pixel has been dealt with, the patch kept is the largest component. */
  lemma AllCovered(mask: seq<Byte>, w: nat, before: set<nat>, largest: seq<nat>)
    requires w > 0 && (forall i: nat :: i < |mask| && Bright(mask, i) ==> i in before)
    requires forall i :: i in before ==> Bright(mask, i)
    requires before != {} ==> largest != [] && IsComponent(mask, w, largest)
    requires before == {} ==> largest == []
    requires NoneLarger(mask, w, before, |largest|)
    ensures (exists s :: Bright(mask, s)) ==> IsComponent(mask, w, largest)
    ensures largest == [] <==> forall s :: !Bright(mask, s)
    ensures forall s: nat :: Bright(mask, s) ==> |Component(mask, w, s)| <= |largest|
  {
    if i :| i in before {
      assert Bright(mask, i);
    }
  }

  lemma PatchCovers(mask: seq<Byte>, w: nat, members: set<nat>, patch: seq<nat>)
    requires w > 0 && Closed(mask, w, members) && Distinct(patch) && members == set i | i in patch
    ensures NoneLarger(mask, w, members, |patch|)
  {
    DistinctSize(patch, members);
    forall s | s in members ensures |Component(mask, w, s)| <= |patch| {
      ComponentWithin(mask, w, members, s);
      SmallerSet(Component(mask, w, s), members);
    }
  }
}
