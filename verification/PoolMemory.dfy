/** How the abstract heap is laid out in memory: boundary-tag headers, free-list links that overlay
    the payload of free blocks, list heads and bitmaps.

    Memory is a row of 16-byte units of two words each. In a header unit the first word is
    `prev_phys_size` and the second `size_and_flags`; in the first payload unit of a free block they
    are the `prev` and `next` links. A pointer is a unit number, NULL is -1. */
module PoolMemory {
  import opened Bits
  import opened Bins
  import opened AbstractHeap
  import opened Lists

  type Words = seq<int>

  const NULL: int := -1

  // ---------------------------------------------------------------------------------------------
  // size_and_flags: bit 0 is F_FREE, bit 1 is F_PREV_FREE, the rest is the payload size

  function Flags(w: int): int { w % 4 }

  function SizeOf(w: int): int { w - Flags(w) }

  predicate IsFree(w: int) { Flags(w) == 1 || Flags(w) == 3 }

  predicate PrevIsFree(w: int) { Flags(w) >= 2 }

  /** s | (w & 3), for a size s that is a multiple of 4. */
  function SetSize(w: int, s: int): int { s + Flags(w) }

  function MarkFree(w: int): int { if IsFree(w) then w else w + 1 }

  function MarkUsed(w: int): int { if IsFree(w) then w - 1 else w }

  function MarkPrevFree(w: int): int { if PrevIsFree(w) then w else w + 2 }

  function MarkPrevUsed(w: int): int { if PrevIsFree(w) then w - 2 else w }

  /** The five header updates touch just the field they are named after. */
  lemma HeaderUpdates(w: int, s: int)
    requires s % 4 == 0
    ensures var v := SetSize(w, s); SizeOf(v) == s && IsFree(v) == IsFree(w) && PrevIsFree(v) == PrevIsFree(w)
    ensures var v := MarkFree(w); SizeOf(v) == SizeOf(w) && IsFree(v) && PrevIsFree(v) == PrevIsFree(w)
    ensures var v := MarkUsed(w); SizeOf(v) == SizeOf(w) && !IsFree(v) && PrevIsFree(v) == PrevIsFree(w)
    ensures var v := MarkPrevFree(w); SizeOf(v) == SizeOf(w) && IsFree(v) == IsFree(w) && PrevIsFree(v)
    ensures var v := MarkPrevUsed(w); SizeOf(v) == SizeOf(w) && IsFree(v) == IsFree(w) && !PrevIsFree(v)
    ensures SizeOf(s + 1) == s && IsFree(s + 1) && !PrevIsFree(s + 1)
  {
    var f := Flags(w);
    WithFlags(SizeOf(w), f);
    WithFlags(s, f);
    WithFlags(s, 1);
    WithFlags(SizeOf(w), if IsFree(w) then f else f + 1);
    WithFlags(SizeOf(w), if IsFree(w) then f - 1 else f);
    WithFlags(SizeOf(w), if PrevIsFree(w) then f else f + 2);
    WithFlags(SizeOf(w), if PrevIsFree(w) then f - 2 else f);
    hide Flags;
  }

  lemma WithFlags(s: int, f: int)
    requires s % 4 == 0 && 0 <= f < 4
    ensures Flags(s + f) == f && SizeOf(s + f) == s
  {
  }

  lemma SetUnits(w: int, n: nat)
    ensures var v := SetSize(w, 16 * n); SizeOf(v) == 16 * n && IsFree(v) == IsFree(w) && PrevIsFree(v) == PrevIsFree(w)
    ensures SizeOf(16 * n + 1) == 16 * n && IsFree(16 * n + 1) && !PrevIsFree(16 * n + 1)
  {
    hide Flags, SizeOf, IsFree, PrevIsFree, SetSize, MarkFree, MarkUsed, MarkPrevFree, MarkPrevUsed;
    FourTimes(4 * n);
    HeaderUpdates(w, 16 * n);
  }

  lemma FourTimes(x: int)
    ensures 4 * x % 4 == 0
  {
  }

  /** A header word is determined by its size and its two flags. */
  lemma HeaderWord(v: int, w: int)
    requires SizeOf(v) == SizeOf(w) && IsFree(v) == IsFree(w) && PrevIsFree(v) == PrevIsFree(w)
    ensures v == w
  {
  }

  // ---------------------------------------------------------------------------------------------
  // Headers

  /** The headers spell out the blocks; the flag that tells x's right neighbour about x may be stale. */
  ghost predicate HeadersOk(w0: Words, w1: Words, blocks: Blocks, end: nat, x: int) {
    && |w0| == |w1|
    && (end > 0 ==> end < |w0| && SizeOf(w1[end]) == 0 && !IsFree(w1[end]) && w0[0] == 0 && !PrevIsFree(w1[0]))
    && (forall b {:trigger Next(blocks, b)} :: b in blocks ==> HeaderOk(w0, w1, blocks, b, x))
  }

  ghost predicate HeaderOk(w0: Words, w1: Words, blocks: Blocks, b: nat, x: int)
    requires b in blocks
  {
    var q := Next(blocks, b);
    && q < |w0| && q < |w1|
    && SizeOf(w1[b]) == 16 * blocks[b].n && IsFree(w1[b]) == blocks[b].free
    && w0[q] == 16 * blocks[b].n
    && (b != x ==> PrevIsFree(w1[q]) == blocks[b].free)
  }

  /** Link units are no header units. */
  lemma LinkUnitIsPayload(blocks: Blocks, end: nat, b: nat)
    requires Tiled(blocks, end) && b in blocks
    ensures b + 1 !in blocks && b + 1 < end
  {
    assert Next(blocks, b) <= end;
  }

  lemma HeadersFrame(w0: Words, w1: Words, v0: Words, v1: Words, blocks: Blocks, end: nat, x: int)
    requires Tiled(blocks, end) && HeadersOk(w0, w1, blocks, end, x)
    requires |v0| == |w0| && |v1| == |w1|
    requires forall u: nat :: u < |w0| && (u in blocks || u == end) ==> v0[u] == w0[u] && v1[u] == w1[u]
    ensures HeadersOk(v0, v1, blocks, end, x)
  {
    hide Flags, SizeOf, IsFree, PrevIsFree;
    forall b | b in blocks ensures HeaderOk(v0, v1, blocks, b, x) {
      assert HeaderOk(w0, w1, blocks, b, x) by { var q := Next(blocks, b); }
    }
  }

  lemma LastUnit(w0: Words, w1: Words, blocks: Blocks, end: nat, x: int, b: nat)
    requires Tiled(blocks, end) && HeadersOk(w0, w1, blocks, end, x) && b in blocks
    ensures end < |w0| && end < |w1| && b < Next(blocks, b) <= end && 16 * blocks[b].n == SizeOf(w1[b])
    ensures HeaderOk(w0, w1, blocks, b, x)
  {
    assert Next(blocks, b) <= end;
  }

  lemma Apart(blocks: Blocks, end: nat, b: nat, c: nat)
    requires Tiled(blocks, end) && b in blocks && c in blocks
    ensures b < Next(blocks, b) && c < Next(blocks, c)
    ensures b != c ==> Next(blocks, b) != Next(blocks, c)
    ensures b < c ==> Next(blocks, b) <= c
    ensures c < b ==> Next(blocks, c) <= b
  {
  }

  lemma BoundaryUnit(blocks: Blocks, end: nat, b: nat)
    requires Tiled(blocks, end) && b in blocks
    ensures Next(blocks, b) == end || Next(blocks, b) in blocks
    ensures end !in blocks
  {
    assert end in blocks ==> Next(blocks, end) <= end;
  }

  /** The free flag right of block b is that of its neighbour; the sentinel is never free. */
  lemma NextFlag(w0: Words, w1: Words, blocks: Blocks, end: nat, b: nat, q: nat)
    requires Tiled(blocks, end) && HeadersOk(w0, w1, blocks, end, b) && b in blocks && q == Next(blocks, b)
    ensures q < |w1| && (IsFree(w1[q]) <==> q in blocks && blocks[q].free)
  {
    hide Flags, SizeOf, IsFree, PrevIsFree;
    BoundaryUnit(blocks, end, b);
    LastUnit(w0, w1, blocks, end, b, b);
    if q in blocks {
      LastUnit(w0, w1, blocks, end, b, q);
    }
  }

  /** The F_PREV_FREE flag of the pending block b and its `prev_phys_size` find a free left neighbour. */
  lemma PrevFlag(w0: Words, w1: Words, blocks: Blocks, end: nat, b: nat)
    requires Tiled(blocks, end) && HeadersOk(w0, w1, blocks, end, b) && b in blocks
    ensures b < |w0| && b < |w1|
    ensures PrevIsFree(w1[b]) ==> w0[b] % 16 == 0 && 0 <= b - 1 - w0[b] / 16 && IsFreePred(blocks, b - 1 - w0[b] / 16, b)
    ensures !PrevIsFree(w1[b]) ==> forall p: nat :: !IsFreePred(blocks, p, b)
  {
    hide Flags, SizeOf, IsFree, PrevIsFree;
    LastUnit(w0, w1, blocks, end, b, b);
    if b > 0 {
      var p := PredExists(blocks, end, 0, b);
      LastUnit(w0, w1, blocks, end, b, p);
      forall q: nat | IsFreePred(blocks, q, b) ensures p == q {
        UniquePred(blocks, end, q, p, b);
      }
    }
  }

  /** Marking block b free: its right neighbour has not been told yet. */
  lemma MarkFreeHeaders(w0: Words, w1: Words, blocks: Blocks, end: nat, b: nat, v1: Words)
    requires Tiled(blocks, end) && HeadersOk(w0, w1, blocks, end, NONE) && b in blocks && b < |w1|
    requires v1 == w1[b := MarkFree(w1[b])]
    ensures HeadersOk(w0, v1, SetFree(blocks, b, true), end, b)
  {
    hide Flags, SizeOf, IsFree, PrevIsFree, MarkFree;
    var r := SetFree(blocks, b, true);
    HeaderUpdates(w1[b], 0);
    LastUnit(w0, w1, blocks, end, NONE, b);
    forall c | c in r ensures HeaderOk(w0, v1, r, c, b) {
      hide Tiled, HeadersOk;
      LastUnit(w0, w1, blocks, end, NONE, c);
    }
  }

  /** Marking block b used and telling its right neighbour. */
  lemma MarkUsedHeaders(w0: Words, w1: Words, blocks: Blocks, end: nat, x: int, b: nat, v1: Words)
    requires Tiled(blocks, end) && HeadersOk(w0, w1, blocks, end, x) && b in blocks && (x == b || x == NONE)
    requires b < Next(blocks, b) < |w1|
    requires v1 == w1[b := MarkUsed(w1[b])][Next(blocks, b) := MarkPrevUsed(w1[Next(blocks, b)])]
    ensures HeadersOk(w0, v1, SetFree(blocks, b, false), end, NONE)
  {
    hide Flags, SizeOf, IsFree, PrevIsFree, MarkUsed, MarkPrevUsed;
    var r, q := SetFree(blocks, b, false), Next(blocks, b);
    HeaderUpdates(w1[b], 0);
    HeaderUpdates(w1[q], 0);
    LastUnit(w0, w1, blocks, end, x, b);
    forall c | c in r ensures HeaderOk(w0, v1, r, c, NONE) {
      hide Tiled, HeadersOk;
      LastUnit(w0, w1, blocks, end, x, c);
      Apart(blocks, end, b, c);
    }
  }

  /** Telling the right neighbour of the free block x that x is free. */
  lemma TellNextHeaders(w0: Words, w1: Words, blocks: Blocks, end: nat, x: nat, v0: Words, v1: Words)
    requires Tiled(blocks, end) && HeadersOk(w0, w1, blocks, end, x) && x in blocks && blocks[x].free
    requires Next(blocks, x) < |w0| && Next(blocks, x) < |w1|
    requires v1 == w1[Next(blocks, x) := MarkPrevFree(w1[Next(blocks, x)])]
    requires v0 == w0[Next(blocks, x) := 16 * blocks[x].n]
    ensures HeadersOk(v0, v1, blocks, end, NONE)
  {
    hide Flags, SizeOf, IsFree, PrevIsFree, MarkPrevFree;
    var q := Next(blocks, x);
    HeaderUpdates(w1[q], 0);
    LastUnit(w0, w1, blocks, end, x, x);
    forall c | c in blocks ensures HeaderOk(v0, v1, blocks, c, NONE) {
      hide Tiled, HeadersOk;
      LastUnit(w0, w1, blocks, end, x, c);
      Apart(blocks, end, x, c);
    }
  }

  lemma SamePayloadsFewer(w0: Words, w1: Words, v0: Words, v1: Words, live: map<nat, nat>, fewer: map<nat, nat>)
    requires SamePayloads(w0, w1, v0, v1, live)
    requires forall b :: b in fewer ==> b in live && live[b] == fewer[b]
    ensures SamePayloads(w0, w1, v0, v1, fewer)
  {
  }

  /** Block b takes in its right neighbour. */
  lemma AbsorbHeaders(w0: Words, w1: Words, blocks: Blocks, end: nat, b: nat, x: int, v0: Words, v1: Words)
    requires Tiled(blocks, end) && HeadersOk(w0, w1, blocks, end, x)
    requires b in blocks && Next(blocks, b) in blocks && (x == b || x == Next(blocks, b))
    requires b < |w1| && Next(blocks, Next(blocks, b)) < |w0|
    requires var n := blocks[b].n + 1 + blocks[Next(blocks, b)].n;
      v1 == w1[b := SetSize(w1[b], 16 * n)] && v0 == w0[Next(blocks, Next(blocks, b)) := 16 * n]
    ensures HeadersOk(v0, v1, Absorb(blocks, b), end, b)
  {
    hide Flags, SizeOf, IsFree, PrevIsFree, SetSize;
    var r, q := Absorb(blocks, b), Next(blocks, b);
    SetUnits(w1[b], blocks[b].n + 1 + blocks[q].n);
    LastUnit(w0, w1, blocks, end, x, b);
    LastUnit(w0, w1, blocks, end, x, q);
    forall c | c in r ensures HeaderOk(v0, v1, r, c, b) {
      hide Tiled, HeadersOk;
      LastUnit(w0, w1, blocks, end, x, c);
      Apart(blocks, end, b, c);
      Apart(blocks, end, q, c);
    }
  }

  /** The words after block b was split: it is shrunk, the remainder q of m units gets a header and
      null links, and the block after, at a, is corrected. */
  ghost predicate SplitWords(w0: Words, w1: Words, b: nat, need: nat, m: nat, v0: Words, v1: Words) {
    var q := b + 1 + need;
    var a := q + 1 + m;
    && m > 0 && a < |w0| && a < |w1|
    && v1 == w1[b := SetSize(w1[b], 16 * need)][q := 16 * m + 1][q + 1 := NULL][a := MarkPrevFree(w1[a])]
    && v0 == w0[q := 16 * need][q + 1 := NULL][a := 16 * m]
  }

  lemma SplitHeaders(w0: Words, w1: Words, blocks: Blocks, end: nat, b: nat, need: nat, v0: Words, v1: Words)
    requires Tiled(blocks, end) && HeadersOk(w0, w1, blocks, end, NONE) && b in blocks && blocks[b].free
    requires 1 <= need && need + 2 <= blocks[b].n
    requires SplitWords(w0, w1, b, need, blocks[b].n - need - 1, v0, v1)
    ensures HeadersOk(v0, v1, Split(blocks, b, need), end, b)
  {
    hide Flags, SizeOf, IsFree, PrevIsFree, SetSize, MarkPrevFree;
    var r, a := Split(blocks, b, need), Next(blocks, b);
    SetUnits(w1[b], need);
    HeaderUpdates(w1[a], 0);
    LastUnit(w0, w1, blocks, end, NONE, b);
    forall c | c in r ensures HeaderOk(v0, v1, r, c, b) {
      hide Tiled, HeadersOk;
      if c != b && c != b + 1 + need {
        LastUnit(w0, w1, blocks, end, NONE, c);
        Apart(blocks, end, b, c);
        SplitKeepsHeader(w0, w1, blocks, b, need, v0, v1, c);
      } else {
        SplitMakesHeaders(w0, w1, blocks, b, need, v0, v1);
      }
    }
  }

  lemma SplitKeepsHeader(w0: Words, w1: Words, blocks: Blocks, b: nat, need: nat, v0: Words, v1: Words, c: nat)
    requires b in blocks && 1 <= need && need + 2 <= blocks[b].n
    requires SplitWords(w0, w1, b, need, blocks[b].n - need - 1, v0, v1)
    requires c in blocks && HeaderOk(w0, w1, blocks, c, NONE) && (c < Next(blocks, c) <= b || Next(blocks, b) <= c)
    ensures HeaderOk(v0, v1, Split(blocks, b, need), c, b)
  {
    hide Flags, SizeOf, IsFree, PrevIsFree, SetSize, MarkPrevFree;
    var a, d := Next(blocks, b), Next(blocks, c);
    SetUnits(w1[b], need);
    HeaderUpdates(w1[a], 0);
    assert v1[c] == if c == a then MarkPrevFree(w1[a]) else w1[c];
    assert v1[d] == if d == b then SetSize(w1[b], 16 * need) else w1[d];
    assert v0[d] == w0[d];
  }

  lemma SplitMakesHeaders(w0: Words, w1: Words, blocks: Blocks, b: nat, need: nat, v0: Words, v1: Words)
    requires b in blocks && 1 <= need && need + 2 <= blocks[b].n && blocks[b].free
    requires SplitWords(w0, w1, b, need, blocks[b].n - need - 1, v0, v1)
    requires HeaderOk(w0, w1, blocks, b, NONE)
    ensures HeaderOk(v0, v1, Split(blocks, b, need), b, b)
    ensures HeaderOk(v0, v1, Split(blocks, b, need), b + 1 + need, b)
  {
    hide Flags, SizeOf, IsFree, PrevIsFree, SetSize, MarkPrevFree;
    var m, a := blocks[b].n - need - 1, Next(blocks, b);
    SplitHeaderWords(w1[b], w1[a], need, m);
  }

  lemma SplitHeaderWords(w: int, after: int, need: nat, m: nat)
    ensures SizeOf(SetSize(w, 16 * need)) == 16 * need && IsFree(SetSize(w, 16 * need)) == IsFree(w)
    ensures SizeOf(16 * m + 1) == 16 * m && IsFree(16 * m + 1) && !PrevIsFree(16 * m + 1)
    ensures PrevIsFree(MarkPrevFree(after))
  {
    hide Flags, SizeOf, IsFree, PrevIsFree, SetSize, MarkPrevFree;
    SetUnits(w, need);
    SetUnits(w, m);
    HeaderUpdates(after, 0);
  }

  // ---------------------------------------------------------------------------------------------
  // Live payloads

  /** Every payload word of the blocks in `live` (start, units) is the same. */
  ghost predicate SamePayloads(w0: Words, w1: Words, v0: Words, v1: Words, live: map<nat, nat>) {
    && |v0| == |w0| && |v1| == |w1|
    && (forall b, u: nat {:trigger b in live, v0[u]} {:trigger b in live, v1[u]} ::
          b in live && b < u <= b + live[b] && u < |w0| && u < |w1| ==> v0[u] == w0[u] && v1[u] == w1[u])
  }

  lemma SamePayloadsChain(w0: Words, w1: Words, u0: Words, u1: Words, v0: Words, v1: Words, live: map<nat, nat>)
    requires SamePayloads(w0, w1, u0, u1, live) && SamePayloads(u0, u1, v0, v1, live)
    ensures SamePayloads(w0, w1, v0, v1, live)
  {
    forall b, u: nat | b in live && b < u <= b + live[b] && u < |w0| && u < |w1|
      ensures v0[u] == w0[u] && v1[u] == w1[u]
    {
      assert u0[u] == w0[u] && u1[u] == w1[u];
    }
  }

  // ---------------------------------------------------------------------------------------------
  // Free lists

  function PrevIn(l: seq<nat>, i: nat): int
    requires i < |l|
  {
    if i == 0 then NULL else l[i - 1]
  }

  function NextIn(l: seq<nat>, i: nat): int
    requires i < |l|
  {
    if i == |l| - 1 then NULL else l[i + 1]
  }

  function HeadOf(l: seq<nat>): int {
    if l == [] then NULL else l[0]
  }

  ghost predicate Node(w0: Words, w1: Words, l: seq<nat>, i: nat)
    requires i < |l|
  {
    var u := l[i] + 1;
    u < |w0| && u < |w1| && w0[u] == PrevIn(l, i) && w1[u] == NextIn(l, i)
  }

  /** The links in memory are those of a doubly linked list that visits l in order. */
  ghost predicate Chain(w0: Words, w1: Words, l: seq<nat>) {
    forall i :: 0 <= i < |l| ==> Node(w0, w1, l, i)
  }

  ghost predicate LinksOk(w0: Words, w1: Words, lists: seq<int>, bins: seq<seq<nat>>) {
    && |lists| == |bins| == BIN_COUNT
    && (forall k :: 0 <= k < BIN_COUNT ==> lists[k] == HeadOf(bins[k]))
    && (forall k :: 0 <= k < BIN_COUNT ==> Chain(w0, w1, bins[k]))
  }

  lemma FrameChain(w0: Words, w1: Words, v0: Words, v1: Words, l: seq<nat>)
    requires Chain(w0, w1, l) && |v0| == |w0| && |v1| == |w1|
    requires forall b :: b in l && b + 1 < |w0| && b + 1 < |w1| ==> v0[b + 1] == w0[b + 1] && v1[b + 1] == w1[b + 1]
    ensures Chain(v0, v1, l)
  {
    forall i | 0 <= i < |l| ensures Node(v0, v1, l, i) {
      assert Node(w0, w1, l, i) && l[i] in l;
    }
  }

  /** Unlinking the i-th node: its neighbours point past it. */
  lemma UnlinkChain(w0: Words, w1: Words, l: seq<nat>, i: nat, v0: Words, v1: Words)
    requires Chain(w0, w1, l) && Distinct(l) && i < |l| && Node(w0, w1, l, i)
    requires i > 0 ==> Node(w0, w1, l, i - 1)
    requires i + 1 < |l| ==> Node(w0, w1, l, i + 1)
    requires v1 == if i == 0 then w1 else w1[l[i - 1] + 1 := NextIn(l, i)]
    requires v0 == if i == |l| - 1 then w0 else w0[l[i + 1] + 1 := PrevIn(l, i)]
    ensures Chain(v0, v1, Without(l, l[i]))
    ensures HeadOf(Without(l, l[i])) == if i == 0 then NextIn(l, i) else l[0]
  {
    WithoutAt(l, i);
    var r := Without(l, l[i]);
    forall j | 0 <= j < |r| ensures Node(v0, v1, r, j) {
      UnlinkNode(w0, w1, l, i, v0, v1, j);
    }
  }

  /** The neighbours of the j-th element once the i-th is gone. */
  lemma RemovedNeighbours(l: seq<nat>, i: nat, j: nat)
    requires i < |l| && j + 1 < |l|
    ensures var r, k := l[..i] + l[i + 1..], if j < i then j else j + 1;
      && |r| == |l| - 1 && k < |l| && k != i && r[j] == l[k]
      && PrevIn(r, j) == (if k == i + 1 then PrevIn(l, i) else PrevIn(l, k))
      && NextIn(r, j) == (if k + 1 == i then NextIn(l, i) else NextIn(l, k))
  {
    var r := l[..i] + l[i + 1..];
    assert forall m :: 0 <= m < |r| ==> r[m] == if m < i then l[m] else l[m + 1];
  }

  lemma UnlinkNode(w0: Words, w1: Words, l: seq<nat>, i: nat, v0: Words, v1: Words, j: nat)
    requires Chain(w0, w1, l) && Distinct(l) && i < |l| && Node(w0, w1, l, i) && j + 1 < |l|
    requires i > 0 ==> Node(w0, w1, l, i - 1)
    requires i + 1 < |l| ==> Node(w0, w1, l, i + 1)
    requires v1 == if i == 0 then w1 else w1[l[i - 1] + 1 := NextIn(l, i)]
    requires v0 == if i == |l| - 1 then w0 else w0[l[i + 1] + 1 := PrevIn(l, i)]
    ensures Node(v0, v1, l[..i] + l[i + 1..], j)
  {
    var k := if j < i then j else j + 1;
    RemovedNeighbours(l, i, j);
    assert Node(w0, w1, l, k);
    DistinctAt(l, k, i - 1);
    DistinctAt(l, k, i + 1);
    hide PrevIn, NextIn, Distinct, Chain;
    assert v1[l[k] + 1] == if k + 1 == i then NextIn(l, i) else w1[l[k] + 1];
    assert v0[l[k] + 1] == if k == i + 1 then PrevIn(l, i) else w0[l[k] + 1];
  }

  lemma DistinctAt(l: seq<nat>, i: nat, j: int)
    requires Distinct(l) && i < |l|
    ensures 0 <= j < |l| && j != i ==> l[i] != l[j]
  {
  }

  /** Pushing b at the front of l. */
  lemma PushChain(w0: Words, w1: Words, l: seq<nat>, b: nat, v0: Words, v1: Words)
    requires Chain(w0, w1, l) && Distinct(l) && b !in l && b + 1 < |w0| && b + 1 < |w1|
    requires l != [] ==> Node(w0, w1, l, 0)
    requires v1 == w1[b + 1 := HeadOf(l)]
    requires v0 == if l == [] then w0[b + 1 := NULL] else w0[b + 1 := NULL][l[0] + 1 := b]
    ensures Chain(v0, v1, [b] + l)
  {
    var r := [b] + l;
    forall j | 0 <= j < |r| ensures Node(v0, v1, r, j) {
      if j > 0 {
        assert Node(w0, w1, l, j - 1) && l[j - 1] in l && r[j] == l[j - 1];
        if j > 1 { assert l[j - 1] != l[0]; }
      }
    }
  }

  /** Memory outside the link units of the free blocks is the same. */
  ghost predicate SameButLinks(w0: Words, w1: Words, v0: Words, v1: Words, blocks: Blocks) {
    && |v0| == |w0| && |v1| == |w1|
    && (forall u: nat :: u < |w0| && !(u - 1 in blocks && blocks[u - 1].free) ==> v0[u] == w0[u])
    && (forall u: nat :: u < |w1| && !(u - 1 in blocks && blocks[u - 1].free) ==> v1[u] == w1[u])
  }

  lemma OneList(blocks: Blocks, bins: seq<seq<nat>>, j: nat, k: nat, b: nat)
    requires Members(blocks, bins) && j < BIN_COUNT && k < BIN_COUNT && b in bins[j]
    ensures b in blocks && blocks[b].free && (UnitBin(blocks[b].n) == k <==> j == k)
    ensures b in bins[k] ==> j == k
  {
    hide UnitBin;
  }

  /** Memory outside block b, its header and its right neighbour's header is the same. */
  ghost predicate SameOutside(w0: Words, w1: Words, v0: Words, v1: Words, b: nat, a: nat) {
    && |v0| == |w0| && |v1| == |w1|
    && (forall u: nat :: u < |w0| && (u < b || a < u) ==> v0[u] == w0[u])
    && (forall u: nat :: u < |w1| && (u < b || a < u) ==> v1[u] == w1[u])
  }

  lemma SplitKeepsOutside(w0: Words, w1: Words, b: nat, need: nat, m: nat, v0: Words, v1: Words)
    requires SplitWords(w0, w1, b, need, m, v0, v1)
    ensures SameOutside(w0, w1, v0, v1, b, b + 2 + need + m)
  {
    hide Flags, SetSize, MarkPrevFree;
  }

  lemma SplitUnits(n: nat, size: nat)
    requires size % 16 == 0 && size + 32 <= 16 * n
    ensures size == 16 * (size / 16) && size / 16 + 2 <= n
    ensures (16 * n - size - 16) / 16 == n - size / 16 - 1
  {
  }

  /** Writing inside a free block that is on no list disturbs no list and no live payload. */
  lemma OutsideKeepsLinks(w0: Words, w1: Words, v0: Words, v1: Words, lists: seq<int>, blocks: Blocks, end: nat,
                          bins: seq<seq<nat>>, b: nat)
    requires Tiled(blocks, end) && Members(blocks, bins) && LinksOk(w0, w1, lists, bins)
    requires b in blocks && forall k :: 0 <= k < BIN_COUNT ==> b !in bins[k]
    requires SameOutside(w0, w1, v0, v1, b, Next(blocks, b))
    ensures LinksOk(v0, v1, lists, bins)
  {
    hide UnitBin;
    forall k | 0 <= k < BIN_COUNT ensures Chain(v0, v1, bins[k]) {
      forall c | c in bins[k] ensures c + 1 < b || Next(blocks, b) < c + 1 {
        OneList(blocks, bins, k, k, c);
        Apart(blocks, end, b, c);
        LinkUnitIsPayload(blocks, end, c);
      }
      FrameChain(w0, w1, v0, v1, bins[k]);
    }
  }

  lemma OutsideKeepsPayloads(w0: Words, w1: Words, v0: Words, v1: Words, blocks: Blocks, end: nat, b: nat)
    requires Tiled(blocks, end) && b in blocks
    requires SameOutside(w0, w1, v0, v1, b, Next(blocks, b))
    ensures SamePayloads(w0, w1, v0, v1, Live(blocks) - {b})
  {
    var live := Live(blocks) - {b};
    forall c, u: nat | c in live && c < u <= c + live[c] && u < |w0| && u < |w1|
      ensures v0[u] == w0[u] && v1[u] == w1[u]
    {
      assert u < Next(blocks, c);
      Apart(blocks, end, b, c);
    }
  }

  lemma HeaderWritesKeepLinks(w0: Words, w1: Words, v0: Words, v1: Words, lists: seq<int>, blocks: Blocks, end: nat,
                              bins: seq<seq<nat>>)
    requires Tiled(blocks, end) && Members(blocks, bins) && LinksOk(w0, w1, lists, bins)
    requires |v0| == |w0| && |v1| == |w1|
    requires forall u: nat :: u < |w0| && u !in blocks && u != end ==> v0[u] == w0[u]
    requires forall u: nat :: u < |w1| && u !in blocks && u != end ==> v1[u] == w1[u]
    ensures LinksOk(v0, v1, lists, bins)
    ensures SamePayloads(w0, w1, v0, v1, Live(blocks))
  {
    hide UnitBin;
    forall k | 0 <= k < BIN_COUNT ensures Chain(v0, v1, bins[k]) {
      forall c | c in bins[k] ensures c + 1 !in blocks && c + 1 != end {
        OneList(blocks, bins, k, k, c);
        LinkUnitIsPayload(blocks, end, c);
      }
      FrameChain(w0, w1, v0, v1, bins[k]);
    }
    forall c, u: nat | c in Live(blocks) && c < u <= c + Live(blocks)[c] && u < |w0| && u < |w1|
      ensures v0[u] == w0[u] && v1[u] == w1[u]
    {
      assert u < Next(blocks, c) <= end;
    }
  }

  lemma AbsorbKeepsLinks(w0: Words, w1: Words, v0: Words, v1: Words, lists: seq<int>, blocks: Blocks, end: nat,
                         bins: seq<seq<nat>>, b: nat, a: nat)
    requires Tiled(blocks, end) && Members(blocks, bins) && LinksOk(w0, w1, lists, bins)
    requires b in blocks && Next(blocks, b) in blocks && a == Next(blocks, Next(blocks, b))
    requires a < |w0| && b < |w1| && |v0| == |w0| && |v1| == |w1|
    requires v0 == w0[a := v0[a]] && v1 == w1[b := v1[b]]
    ensures LinksOk(v0, v1, lists, bins)
    ensures SamePayloads(w0, w1, v0, v1, Live(blocks))
  {
    BoundaryUnit(blocks, end, Next(blocks, b));
    HeaderWritesKeepLinks(w0, w1, v0, v1, lists, blocks, end, bins);
  }

  lemma FreshHeaders(w0: Words, w1: Words, n: nat)
    requires n + 1 < |w0| && |w0| == |w1|
    requires w0[0] == 0 && w1[0] == 16 * n + 1 && w0[n + 1] == 16 * n && w1[n + 1] == 2
    ensures HeadersOk(w0, w1, map[0 := Block(n, true)], n + 1, NONE)
  {
    assert Next(map[0 := Block(n, true)], 0) == n + 1;
  }

  /** With every list empty, memory is free to change. */
  lemma FreshLinks(w0: Words, w1: Words, v0: Words, v1: Words, lists: seq<int>, bins: seq<seq<nat>>)
    requires LinksOk(w0, w1, lists, bins) && forall k :: 0 <= k < BIN_COUNT ==> bins[k] == []
    ensures LinksOk(v0, v1, lists, bins)
  {
  }

  lemma LinksKeepPayloads(w0: Words, w1: Words, v0: Words, v1: Words, blocks: Blocks, end: nat)
    requires Tiled(blocks, end) && SameButLinks(w0, w1, v0, v1, blocks)
    ensures SamePayloads(w0, w1, v0, v1, Live(blocks))
  {
    forall c, u: nat | c in Live(blocks) && c < u <= c + Live(blocks)[c] && u < |w0| && u < |w1|
      ensures v0[u] == w0[u] && v1[u] == w1[u]
    {
      assert u < Next(blocks, c);
      if u - 1 in blocks { Apart(blocks, end, u - 1, c); LinkUnitIsPayload(blocks, end, u - 1); }
    }
  }

  lemma SameButLinksHeaders(w0: Words, w1: Words, v0: Words, v1: Words, blocks: Blocks, end: nat, x: int)
    requires Tiled(blocks, end) && HeadersOk(w0, w1, blocks, end, x) && SameButLinks(w0, w1, v0, v1, blocks)
    ensures HeadersOk(v0, v1, blocks, end, x)
  {
    forall u: nat | u < |w0| && (u in blocks || u == end) ensures v0[u] == w0[u] && v1[u] == w1[u] {
      if u - 1 in blocks {
        LinkUnitIsPayload(blocks, end, u - 1);
      }
    }
    HeadersFrame(w0, w1, v0, v1, blocks, end, x);
  }

  /** Unlinking the i-th block of list k leaves links and heads right for the list without it. */
  lemma UnlinkLinks(w0: Words, w1: Words, lists: seq<int>, blocks: Blocks, bins: seq<seq<nat>>, k: nat, i: nat,
                    v0: Words, v1: Words, heads: seq<int>)
    requires LinksOk(w0, w1, lists, bins) && Members(blocks, bins) && k < BIN_COUNT && i < |bins[k]|
    requires i > 0 ==> Node(w0, w1, bins[k], i - 1)
    requires i + 1 < |bins[k]| ==> Node(w0, w1, bins[k], i + 1)
    requires v1 == if i == 0 then w1 else w1[bins[k][i - 1] + 1 := NextIn(bins[k], i)]
    requires v0 == if i == |bins[k]| - 1 then w0 else w0[bins[k][i + 1] + 1 := PrevIn(bins[k], i)]
    requires heads == if i == 0 then lists[k := NextIn(bins[k], i)] else lists
    ensures LinksOk(v0, v1, heads, bins[k := Without(bins[k], bins[k][i])])
    ensures SameButLinks(w0, w1, v0, v1, blocks)
  {
    hide UnitBin;
    var l := bins[k];
    UnlinkChain(w0, w1, l, i, v0, v1);
    UnlinkFrame(w0, w1, blocks, bins, k, i, v0, v1);
    forall j | 0 <= j < BIN_COUNT && j != k ensures Chain(v0, v1, bins[j]) {
      hide Node, Distinct, Members, Chain, SameButLinks;
      FrameChain(w0, w1, v0, v1, bins[j]);
    }
  }

  lemma UnlinkFrame(w0: Words, w1: Words, blocks: Blocks, bins: seq<seq<nat>>, k: nat, i: nat, v0: Words, v1: Words)
    requires Members(blocks, bins) && k < BIN_COUNT && i < |bins[k]|
    requires i > 0 ==> bins[k][i - 1] + 1 < |w1|
    requires i + 1 < |bins[k]| ==> bins[k][i + 1] + 1 < |w0|
    requires v1 == if i == 0 then w1 else w1[bins[k][i - 1] + 1 := NextIn(bins[k], i)]
    requires v0 == if i == |bins[k]| - 1 then w0 else w0[bins[k][i + 1] + 1 := PrevIn(bins[k], i)]
    ensures SameButLinks(w0, w1, v0, v1, blocks)
    ensures forall j, b :: 0 <= j < BIN_COUNT && j != k && b in bins[j] && b + 1 < |w0| && b + 1 < |w1| ==>
              v0[b + 1] == w0[b + 1] && v1[b + 1] == w1[b + 1]
  {
    hide UnitBin;
    var l := bins[k];
    if i > 0 { OneList(blocks, bins, k, k, l[i - 1]); }
    if i + 1 < |l| { OneList(blocks, bins, k, k, l[i + 1]); }
    forall j, b | 0 <= j < BIN_COUNT && j != k && b in bins[j] ensures b !in l {
      OneList(blocks, bins, j, k, b);
    }
  }

  /** Pushing the free block b, on no list so far, at the front of list k. */
  lemma PushLinks(w0: Words, w1: Words, lists: seq<int>, blocks: Blocks, bins: seq<seq<nat>>, k: nat, b: nat,
                  v0: Words, v1: Words)
    requires LinksOk(w0, w1, lists, bins) && Members(blocks, bins) && k < BIN_COUNT
    requires b in blocks && blocks[b].free && UnitBin(blocks[b].n) == k && b !in bins[k]
    requires b + 1 < |w0| && b + 1 < |w1|
    requires bins[k] != [] ==> Node(w0, w1, bins[k], 0)
    requires v1 == w1[b + 1 := HeadOf(bins[k])]
    requires v0 == if bins[k] == [] then w0[b + 1 := NULL] else w0[b + 1 := NULL][bins[k][0] + 1 := b]
    ensures LinksOk(v0, v1, lists[k := b], bins[k := [b] + bins[k]])
    ensures SameButLinks(w0, w1, v0, v1, blocks)
  {
    hide UnitBin;
    var l := bins[k];
    PushChain(w0, w1, l, b, v0, v1);
    assert l != [] ==> l[0] in l;
    forall j | 0 <= j < BIN_COUNT && j != k ensures Chain(v0, v1, bins[j]) {
      forall c | c in bins[j] ensures c !in l && c != b {
        OneList(blocks, bins, j, k, c);
      }
      FrameChain(w0, w1, v0, v1, bins[j]);
    }
  }

  // ---------------------------------------------------------------------------------------------
  // Bitmaps

  /** A second-level bit is set iff its list is non-empty; a first-level bit iff its word is non-zero. */
  ghost predicate BitsOk(fl: nat, sls: seq<nat>, bins: seq<seq<nat>>) {
    && |sls| == FL_COUNT && |bins| == BIN_COUNT
    && (forall f, s: nat {:trigger Bit(sls[f], s)} :: 0 <= f < FL_COUNT ==>
          (Bit(sls[f], s) <==> s < SL_COUNT && bins[16 * f + s] != []))
    && (forall f: nat {:trigger Bit(fl, f)} :: Bit(fl, f) <==> f < FL_COUNT && sls[f] != 0)
  }

  /** The bitmaps stay within their 32-bit words. */
  lemma BitmapsFit(fl: nat, sls: seq<nat>, bins: seq<seq<nat>>)
    requires BitsOk(fl, sls, bins)
    ensures fl < U32_LIMIT && forall f :: 0 <= f < |sls| ==> sls[f] < U32_LIMIT
  {
    Pow2Monotone(18, 32);
    assert Pow2(32) == 0x1_0000_0000 by { Pow2Values(); assert Pow2(26) == 16 * Pow2(22); assert Pow2(32) == 64 * Pow2(26); }
    Pow2Monotone(16, 32);
    BelowWidth(fl, 18);
    forall f | 0 <= f < |sls| ensures sls[f] < U32_LIMIT {
      BelowWidth(sls[f], 16);
    }
  }

  /** After the list of bin (f, s) changed: set its bits if it has a block, clear them if not. */
  lemma BitsUpdated(fl: nat, sls: seq<nat>, bins: seq<seq<nat>>, f: nat, s: nat, l: seq<nat>)
    requires BitsOk(fl, sls, bins) && f < FL_COUNT && s < SL_COUNT
    ensures l != [] ==> BitsOk(SetBit(fl, f), sls[f := SetBit(sls[f], s)], bins[16 * f + s := l])
    ensures l != [] && bins[16 * f + s] != [] ==> BitsOk(fl, sls, bins[16 * f + s := l])
    ensures l == [] ==>
      var w := ClearBit(sls[f], s);
      BitsOk(if w == 0 then ClearBit(fl, f) else fl, sls[f := w], bins[16 * f + s := l])
  {
    UpdatedBits(fl, f);
    UpdatedBits(sls[f], s);
    if ClearBit(sls[f], s) != 0 {
      LowestBit(ClearBit(sls[f], s));
      ZeroHasNoBit(TrailingZeros(ClearBit(sls[f], s)));
    }
  }

  lemma UpdatedBits(m: nat, i: nat)
    ensures forall j: nat {:trigger Bit(SetBit(m, i), j)} :: Bit(SetBit(m, i), j) == (j == i || Bit(m, j))
    ensures forall j: nat {:trigger Bit(ClearBit(m, i), j)} :: Bit(ClearBit(m, i), j) == (j != i && Bit(m, j))
    ensures SetBit(m, i) != 0
  {
    forall j: nat
      ensures Bit(SetBit(m, i), j) == (j == i || Bit(m, j))
      ensures Bit(ClearBit(m, i), j) == (j != i && Bit(m, j))
    {
      SetBitBit(m, i, j);
      ClearBitBit(m, i, j);
    }
    ZeroHasNoBit(i);
    assert Bit(SetBit(m, i), i);
  }

  lemma FirstBinIs(bins: seq<seq<nat>>, k: nat, r: nat)
    requires k <= r <= |bins| && (r < |bins| ==> bins[r] != [])
    requires forall j :: k <= j < r ==> bins[j] == []
    ensures FirstBin(bins, k) == r
  {
    var f := FirstBin(bins, k);
  }

  /** A hit in the searched first-level row is the first non-empty bin. */
  lemma RowSearch(fl: nat, sls: seq<nat>, bins: seq<seq<nat>>, f: nat, s: nat)
    requires BitsOk(fl, sls, bins) && f < FL_COUNT && s < SL_COUNT && MaskFrom(sls[f], s) != 0
    ensures var t := TrailingZeros(MaskFrom(sls[f], s));
      t < SL_COUNT && FirstBin(bins, 16 * f + s) == 16 * f + t
  {
    var m := MaskFrom(sls[f], s);
    var t := TrailingZeros(m);
    LowestBit(m);
    MaskFromBit(sls[f], s, t);
    assert Bit(sls[f], t);
    forall j | 16 * f + s <= j < 16 * f + t ensures bins[j] == [] {
      MaskFromBit(sls[f], s, j - 16 * f);
      assert !Bit(sls[f], j - 16 * f);
    }
    FirstBinIs(bins, 16 * f + s, 16 * f + t);
  }

  lemma EmptyRow(fl: nat, sls: seq<nat>, bins: seq<seq<nat>>, f: nat, s: nat)
    requires BitsOk(fl, sls, bins) && f < FL_COUNT && s < SL_COUNT && MaskFrom(sls[f], s) == 0
    ensures forall j :: 16 * f + s <= j < 16 * f + 16 ==> bins[j] == []
  {
    forall j | 16 * f + s <= j < 16 * f + 16 ensures bins[j] == [] {
      MaskFromBit(sls[f], s, j - 16 * f);
      ZeroHasNoBit(j - 16 * f);
      assert !Bit(sls[f], j - 16 * f);
    }
  }

  lemma EmptyRows(fl: nat, sls: seq<nat>, bins: seq<seq<nat>>, f: nat, g: nat)
    requires BitsOk(fl, sls, bins) && f <= g <= FL_COUNT
    requires forall i :: f <= i < g ==> !Bit(fl, i)
    ensures forall j :: 16 * f <= j < 16 * g ==> bins[j] == []
  {
    forall j | 16 * f <= j < 16 * g ensures bins[j] == [] {
      var i := j / 16;
      assert f <= i < g && !Bit(fl, i) && sls[i] == 0;
      ZeroHasNoBit(j % 16);
      assert !Bit(sls[i], j % 16) && j == 16 * i + j % 16;
    }
  }

  /** When the row has nothing, the lowest higher row with a block gives the first non-empty bin. */
  lemma ColumnSearch(fl: nat, sls: seq<nat>, bins: seq<seq<nat>>, f: nat, s: nat)
    requires BitsOk(fl, sls, bins) && f < FL_COUNT && s < SL_COUNT && MaskFrom(sls[f], s) == 0
    ensures var m := MaskFrom(fl, f + 1);
      if m == 0 then FirstBin(bins, 16 * f + s) == BIN_COUNT
      else
        var g := TrailingZeros(m);
        g < FL_COUNT && sls[g] != 0 && TrailingZeros(sls[g]) < SL_COUNT
        && FirstBin(bins, 16 * f + s) == 16 * g + TrailingZeros(sls[g])
  {
    EmptyRow(fl, sls, bins, f, s);
    var m := MaskFrom(fl, f + 1);
    forall i: nat ensures Bit(m, i) == (f + 1 <= i && Bit(fl, i)) { MaskFromBit(fl, f + 1, i); }
    if m == 0 {
      forall i | f + 1 <= i < FL_COUNT ensures !Bit(fl, i) {
        ZeroHasNoBit(i);
        assert !Bit(m, i);
      }
      EmptyRows(fl, sls, bins, f + 1, FL_COUNT);
      FirstBinIs(bins, 16 * f + s, BIN_COUNT);
    } else {
      var g := TrailingZeros(m);
      LowestBit(m);
      assert Bit(fl, g);
      var t := TrailingZeros(sls[g]);
      LowestBit(sls[g]);
      assert Bit(sls[g], t);
      forall i | f + 1 <= i < g ensures !Bit(fl, i) { assert !Bit(m, i); }
      EmptyRows(fl, sls, bins, f + 1, g);
      forall j | 16 * g <= j < 16 * g + t ensures bins[j] == [] { assert !Bit(sls[g], j - 16 * g); }
      FirstBinIs(bins, 16 * f + s, 16 * g + t);
    }
  }

  // ---------------------------------------------------------------------------------------------
  // The abstract heap determines the concrete state

  /** Same headers, same sentinel, same links of free blocks. */
  ghost predicate SameTags(w0: Words, w1: Words, v0: Words, v1: Words, blocks: Blocks, end: nat) {
    && |w0| == |w1| == |v0| == |v1|
    && (forall b :: b in blocks || b == end ==> b < |w0| && v0[b] == w0[b] && v1[b] == w1[b])
    && (forall b :: b in blocks && blocks[b].free ==> b + 1 < |w0| && v0[b + 1] == w0[b + 1] && v1[b + 1] == w1[b + 1])
  }

  /** Two memories that lay out the same heap have the same headers, links and list heads. */
  lemma LayoutDetermined(w0: Words, w1: Words, v0: Words, v1: Words, h: Heap, lw: seq<int>, lv: seq<int>)
    requires WellFormed(h) && h.end > 0 && |w0| == |v0|
    requires HeadersOk(w0, w1, h.blocks, h.end, NONE) && HeadersOk(v0, v1, h.blocks, h.end, NONE)
    requires LinksOk(w0, w1, lw, h.bins) && LinksOk(v0, v1, lv, h.bins)
    ensures lw == lv
    ensures SameTags(w0, w1, v0, v1, h.blocks, h.end)
  {
    hide UnitBin, SizeOf, IsFree, PrevIsFree, Chain, Tiled, Indexed, Coalesced, HeaderOk;
    forall b | b in h.blocks ensures b < |w0| && v0[b] == w0[b] && v1[b] == w1[b] {
      hide HeadersOk, LinksOk;
      SameHeader(w0, w1, v0, v1, h, b);
    }
    FirstBlock(h.blocks, h.end);
    var p := LastBlock(h.blocks, h.end, 0);
    SameHeader(w0, w1, v0, v1, h, p);
    HeaderWord(v1[h.end], w1[h.end]);
    forall b | b in h.blocks && h.blocks[b].free
      ensures b + 1 < |w0| && v0[b + 1] == w0[b + 1] && v1[b + 1] == w1[b + 1]
    {
      hide HeadersOk, LinksOk;
      SameLinks(w0, w1, v0, v1, h, lw, lv, b);
    }
  }

  lemma SameLinks(w0: Words, w1: Words, v0: Words, v1: Words, h: Heap, lw: seq<int>, lv: seq<int>, b: nat)
    requires Indexed(h.blocks, h.bins, NONE) && b in h.blocks && h.blocks[b].free
    requires LinksOk(w0, w1, lw, h.bins) && LinksOk(v0, v1, lv, h.bins)
    ensures b + 1 < |w0| && b + 1 < |w1| && b + 1 < |v0| && b + 1 < |v1|
    ensures v0[b + 1] == w0[b + 1] && v1[b + 1] == w1[b + 1]
  {
    hide UnitBin;
    var k := UnitBin(h.blocks[b].n);
    var i :| 0 <= i < |h.bins[k]| && h.bins[k][i] == b;
    assert Node(w0, w1, h.bins[k], i) && Node(v0, v1, h.bins[k], i);
  }

  lemma FirstBlock(blocks: Blocks, end: nat)
    requires Tiled(blocks, end) && end > 0
    ensures 0 in blocks
  {
  }

  lemma {:induction false} LastBlock(blocks: Blocks, end: nat, c: nat) returns (p: nat)
    requires Tiled(blocks, end) && c in blocks
    ensures p in blocks && Next(blocks, p) == end
    decreases end - c
  {
    var n := Next(blocks, c);
    assert n <= end;
    if n == end { p := c; } else { p := LastBlock(blocks, end, n); }
  }

  lemma SameHeader(w0: Words, w1: Words, v0: Words, v1: Words, h: Heap, b: nat)
    requires Tiled(h.blocks, h.end) && b in h.blocks && |w0| == |v0|
    requires HeadersOk(w0, w1, h.blocks, h.end, NONE) && HeadersOk(v0, v1, h.blocks, h.end, NONE)
    ensures Next(h.blocks, b) < |w0| && Next(h.blocks, b) < |w1| && Next(h.blocks, b) < |v1|
    ensures v0[b] == w0[b] && v1[b] == w1[b]
    ensures v0[Next(h.blocks, b)] == w0[Next(h.blocks, b)]
    ensures PrevIsFree(v1[Next(h.blocks, b)]) == PrevIsFree(w1[Next(h.blocks, b)])
  {
    hide Flags, SizeOf, IsFree, PrevIsFree;
    LastUnit(w0, w1, h.blocks, h.end, NONE, b);
    LastUnit(v0, v1, h.blocks, h.end, NONE, b);
    if b > 0 {
      var p := PredExists(h.blocks, h.end, 0, b);
      LastUnit(w0, w1, h.blocks, h.end, NONE, p);
      LastUnit(v0, v1, h.blocks, h.end, NONE, p);
    }
    HeaderWord(v1[b], w1[b]);
  }

  lemma BitmapsDetermined(fl: nat, sls: seq<nat>, fv: nat, svs: seq<nat>, bins: seq<seq<nat>>)
    requires BitsOk(fl, sls, bins) && BitsOk(fv, svs, bins)
    ensures fl == fv && sls == svs
  {
    forall f | 0 <= f < FL_COUNT ensures sls[f] == svs[f] {
      forall s: nat ensures Bit(sls[f], s) == Bit(svs[f], s) {}
      SameBits(sls[f], svs[f]);
    }
    forall f: nat ensures Bit(fl, f) == Bit(fv, f) {}
    SameBits(fl, fv);
  }
}
