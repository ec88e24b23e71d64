/**
 The theory behind the page allocator: regions of RAM, aligned power-of-two blocks, and the
 set of free and used blocks that the frame array and the free lists represent.
 */
module Blocks {
  import opened Bits

  const MAX_ORDER: nat := 20

  /** One RAM range: physical `base`/`size` in bytes, and the page indices `first .. first + pages`. */
  datatype Region = Region(base: nat, size: nat, first: nat, pages: nat)

  /** Regions number their pages one after the other, starting at 0. */
  ghost predicate Chained(rs: seq<Region>) {
    && (forall i :: 0 <= i < |rs| ==> rs[i].pages > 0)
    && (forall i {:trigger rs[..i]} :: 0 <= i < |rs| ==> rs[i].first == Total(rs[..i]))
    && (forall i, j :: 0 <= i < j < |rs| ==> rs[i].first + rs[i].pages <= rs[j].first)
  }

  /** The number of managed pages. */
  function Total(rs: seq<Region>): nat {
    if rs == [] then 0 else rs[|rs| - 1].first + rs[|rs| - 1].pages
  }

  lemma {:induction false} SomeRegion(rs: seq<Region>, p: nat, n: nat)
    requires Chained(rs) && n <= |rs| && p < Total(rs[..n])
    ensures exists r :: 0 <= r < |rs| && rs[r].first <= p < rs[r].first + rs[r].pages
    decreases n
  {
    if p < rs[n - 1].first {
      assert rs[..n - 1] == rs[..n][..n - 1];
      SomeRegion(rs, p, n - 1);
    }
  }

  /** The region that owns page `p`. */
  ghost function RegionAt(rs: seq<Region>, p: nat): (r: nat)
    requires Chained(rs) && p < Total(rs)
    ensures r < |rs| && rs[r].first <= p < rs[r].first + rs[r].pages
  {
    assert rs[..|rs|] == rs;
    SomeRegion(rs, p, |rs|);
    var r :| 0 <= r < |rs| && rs[r].first <= p < rs[r].first + rs[r].pages;
    r
  }

  lemma RegionAtUnique(rs: seq<Region>, p: nat, r: nat)
    requires Chained(rs) && r < |rs| && rs[r].first <= p < rs[r].first + rs[r].pages
    ensures p < Total(rs) && RegionAt(rs, p) == r
  {
    assert r < |rs| - 1 ==> rs[r].first + rs[r].pages <= rs[|rs| - 1].first;
  }

  /** First page of the region of `p`. */
  ghost function Lo(rs: seq<Region>, p: nat): (lo: nat)
    requires Chained(rs) && p < Total(rs)
    ensures lo <= p
  {
    rs[RegionAt(rs, p)].first
  }

  /** One past the last page of the region of `p`. */
  ghost function Hi(rs: seq<Region>, p: nat): (hi: nat)
    requires Chained(rs) && p < Total(rs)
    ensures p < hi <= Total(rs)
  {
    var r := RegionAt(rs, p);
    assert r < |rs| - 1 ==> rs[r].first + rs[r].pages <= rs[|rs| - 1].first;
    rs[r].first + rs[r].pages
  }

  lemma SameSpan(rs: seq<Region>, p: nat, q: nat)
    requires Chained(rs) && p < Total(rs) && Lo(rs, p) <= q < Hi(rs, p)
    ensures q < Total(rs) && Lo(rs, q) == Lo(rs, p) && Hi(rs, q) == Hi(rs, p)
  {
    RegionAtUnique(rs, q, RegionAt(rs, p));
  }

  /** Pages `head .. head + 2^order`. */
  datatype Block = Block(head: nat, order: nat)

  function End(b: Block): nat {
    b.head + Pow2(b.order)
  }

  predicate In(b: Block, p: int) {
    b.head <= p < End(b)
  }

  predicate Apart(b: Block, c: Block) {
    End(b) <= c.head || End(c) <= b.head
  }

  predicate Within(b: Block, c: Block) {
    c.head <= b.head && End(b) <= End(c)
  }

  /** A legal buddy block: inside one region and aligned to its own size relative to that region. */
  ghost predicate Fits(rs: seq<Region>, b: Block)
    requires Chained(rs)
  {
    && b.order <= MAX_ORDER && b.head < Total(rs)
    && Aligned(b.head - Lo(rs, b.head), b.order)
    && End(b) <= Hi(rs, b.head)
  }

  lemma NestOrApart(rs: seq<Region>, b: Block, c: Block)
    requires Chained(rs) && Fits(rs, b) && Fits(rs, c) && b.order <= c.order && !Apart(b, c)
    ensures Within(b, c) && Lo(rs, b.head) == Lo(rs, c.head) && Hi(rs, b.head) == Hi(rs, c.head)
    ensures b.order == c.order ==> b == c
  {
    var p := if b.head < c.head then c.head else b.head;
    SameSpan(rs, b.head, p);
    SameSpan(rs, c.head, p);
    var lo := Lo(rs, p);
    NestedIfOverlap(b.head - lo, b.order, c.head - lo, c.order);
  }

  /** The block that differs from `b` in the bit of its own size. */
  ghost function Sibling(rs: seq<Region>, b: Block): Block
    requires Chained(rs) && b.head < Total(rs)
  {
    var lo := Lo(rs, b.head);
    Block(lo + Xor(b.head - lo, Pow2(b.order)), b.order)
  }

  /** The block that `b` and its sibling make up. */
  ghost function Parent(rs: seq<Region>, b: Block): Block
    requires Chained(rs) && b.head < Total(rs)
  {
    var s := Sibling(rs, b);
    Block(if s.head < b.head then s.head else b.head, b.order + 1)
  }

  function Left(b: Block): Block
    requires b.order > 0
  {
    Block(b.head, b.order - 1)
  }

  function Right(b: Block): Block
    requires b.order > 0
  {
    Block(b.head + Pow2(b.order - 1), b.order - 1)
  }

  lemma Pow2Next(o: nat)
    ensures Pow2(o + 1) == 2 * Pow2(o)
  {
  }

  lemma HalvesFit(rs: seq<Region>, b: Block)
    requires Chained(rs) && Fits(rs, b) && b.order > 0
    ensures Fits(rs, Left(b)) && Fits(rs, Right(b))
    ensures Sibling(rs, Left(b)) == Right(b) && Sibling(rs, Right(b)) == Left(b)
    ensures Parent(rs, Left(b)) == b && Parent(rs, Right(b)) == b
    ensures Apart(Left(b), Right(b)) && forall p :: In(b, p) <==> In(Left(b), p) || In(Right(b), p)
  {
    hide Pow2, Xor, Chained, Total, Lo, Hi;
    var lo, o := Lo(rs, b.head), b.order - 1;
    Pow2Next(o);
    HalvesAligned(b.head - lo, o);
    SameSpan(rs, b.head, Right(b).head);
    assert Right(b).head - lo == b.head - lo + Pow2(o);
    XorSibling(b.head - lo, o);
    XorSibling(b.head - lo + Pow2(o), o);
  }

  /** A block whose sibling lies in the same region and fits is one half of a fitting parent. */
  lemma SiblingFits(rs: seq<Region>, b: Block)
    requires Chained(rs) && Fits(rs, b) && b.order < MAX_ORDER
    requires Sibling(rs, b).head < Hi(rs, b.head) && Fits(rs, Sibling(rs, b))
    ensures Fits(rs, Parent(rs, b))
    ensures (b == Left(Parent(rs, b)) && Sibling(rs, b) == Right(Parent(rs, b)))
         || (b == Right(Parent(rs, b)) && Sibling(rs, b) == Left(Parent(rs, b)))
  {
    hide Pow2, Xor, Chained, Total, Lo, Hi;
    Pow2Next(b.order);
    var lo, o, s := Lo(rs, b.head), b.order, Sibling(rs, b);
    XorSibling(b.head - lo, o);
    SameSpan(rs, b.head, s.head);
    if !Aligned(b.head - lo, o + 1) {
      RightHalf(b.head - lo, o);
    }
  }

  /** Free and used blocks. A block that an operation holds in hand counts as used. */
  datatype Mem = Mem(free: set<Block>, used: set<Block>)

  /** `b` can be merged: its sibling lies in the same region and is a free block of the same order. */
  ghost predicate Mergeable(rs: seq<Region>, free: set<Block>, b: Block)
    requires Chained(rs) && Fits(rs, b)
  {
    b.order < MAX_ORDER && Sibling(rs, b).head < Hi(rs, b.head) && Sibling(rs, b) in free
  }

  ghost predicate Held(bs: set<Block>, p: nat) {
    exists b :: b in bs && In(b, p)
  }

  /** Pairwise disjoint blocks. */
  ghost predicate Separate(bs: set<Block>) {
    forall b, c :: b in bs && c in bs && b != c ==> Apart(b, c)
  }

  ghost predicate Tiling(rs: seq<Region>, usable: set<nat>, m: Mem)
    requires Chained(rs)
  {
    && m.free !! m.used
    && (forall b :: b in m.free || b in m.used ==> Fits(rs, b))
    && Separate(m.free + m.used)
    && (forall p :: p in usable <==> Held(m.free, p) || Held(m.used, p))
  }

  /** The allocator invariant: the blocks tile the usable pages and no free pair is left unmerged. */
  ghost predicate MemOk(rs: seq<Region>, usable: set<nat>, m: Mem)
    requires Chained(rs)
  {
    && Tiling(rs, usable, m)
    && (forall b :: b in m.free ==> !Mergeable(rs, m.free, b))
  }

  // ----- the four elementary steps -----

  ghost function Take(m: Mem, b: Block): Mem {
    Mem(m.free - {b}, m.used + {b})
  }

  ghost function Shrink(m: Mem, b: Block): Mem
    requires b.order > 0
  {
    Mem(m.free + {Right(b)}, m.used - {b} + {Left(b)})
  }

  ghost function Grow(rs: seq<Region>, m: Mem, b: Block): Mem
    requires Chained(rs) && b.head < Total(rs)
  {
    Mem(m.free - {Sibling(rs, b)}, m.used - {b} + {Parent(rs, b)})
  }

  ghost function Release(m: Mem, b: Block): Mem {
    Mem(m.free + {b}, m.used - {b})
  }

  lemma TakeOk(rs: seq<Region>, usable: set<nat>, m: Mem, b: Block)
    requires Chained(rs) && MemOk(rs, usable, m) && b in m.free
    ensures MemOk(rs, usable, Take(m, b))
  {
    var n := Take(m, b);
    assert n.free + n.used == m.free + m.used;
    forall p ensures p in usable <==> Held(n.free, p) || Held(n.used, p) {
      HeldMoves(m.free, m.used, b, p);
    }
  }

  lemma HeldMoves(from: set<Block>, to: set<Block>, b: Block, p: nat)
    requires b in from
    ensures Held(from, p) || Held(to, p) <==> Held(from - {b}, p) || Held(to + {b}, p)
  {
    if c :| c in from && In(c, p) {
      assert c == b || c in from - {b};
      assert b in to + {b};
    }
    if c :| c in to && In(c, p) {
      assert c in to + {b};
    }
  }

  /** Being siblings is symmetric. */
  lemma SiblingOfSibling(rs: seq<Region>, c: Block)
    requires Chained(rs) && Fits(rs, c) && c.order < MAX_ORDER
    requires Sibling(rs, c).head < Hi(rs, c.head) && Fits(rs, Sibling(rs, c))
    ensures Sibling(rs, Sibling(rs, c)) == c && c.head < Hi(rs, Sibling(rs, c).head)
    ensures Apart(c, Sibling(rs, c)) && c != Sibling(rs, c)
  {
    SiblingFits(rs, c);
    HalvesFit(rs, Parent(rs, c));
    SameSpan(rs, c.head, Sibling(rs, c).head);
  }

  /** Adding one free block can only create a pair that contains it. */
  lemma AddKeepsUnmerged(rs: seq<Region>, free: set<Block>, b: Block)
    requires Chained(rs) && Fits(rs, b)
    requires forall c :: c in free ==> Fits(rs, c) && !Mergeable(rs, free, c)
    requires !Mergeable(rs, free, b)
    ensures forall c :: c in free + {b} ==> !Mergeable(rs, free + {b}, c)
  {
    forall c | c in free + {b} ensures !Mergeable(rs, free + {b}, c) {
      if Mergeable(rs, free + {b}, c) {
        SiblingOfSibling(rs, c);
      }
    }
  }

  lemma ReleaseOk(rs: seq<Region>, usable: set<nat>, m: Mem, b: Block)
    requires Chained(rs) && MemOk(rs, usable, m) && b in m.used && !Mergeable(rs, m.free, b)
    ensures MemOk(rs, usable, Release(m, b))
  {
    var n := Release(m, b);
    assert n.free + n.used == m.free + m.used;
    forall p ensures p in usable <==> Held(n.free, p) || Held(n.used, p) {
      HeldMoves(m.used, m.free, b, p);
    }
    AddKeepsUnmerged(rs, m.free, b);
  }

  /** Whatever is apart from a block is apart from its halves. */
  lemma SplitSeparate(bs: set<Block>, b: Block)
    requires Separate(bs) && b in bs && b.order > 0
    ensures Left(b) !in bs && Right(b) !in bs
    ensures Separate(bs - {b} + {Left(b), Right(b)})
  {
    assert !Apart(b, Left(b)) && !Apart(b, Right(b)) && Left(b) != b && Right(b) != b;
  }

  lemma JoinSeparate(bs: set<Block>, q: Block)
    requires Separate(bs) && q.order > 0 && Left(q) in bs && Right(q) in bs
    ensures q !in bs
    ensures Separate(bs - {Left(q), Right(q)} + {q})
  {
    assert Pow2(q.order) == 2 * Pow2(q.order - 1);
    hide Pow2;
    assert !Apart(q, Left(q)) && Left(q) != q;
  }

  lemma ShrinkTiles(rs: seq<Region>, usable: set<nat>, m: Mem, b: Block)
    requires Chained(rs) && Tiling(rs, usable, m) && b in m.used && b.order > 0
    ensures Tiling(rs, usable, Shrink(m, b))
    ensures Left(b) !in m.free && Left(b) !in m.used && Right(b) !in m.free && Right(b) !in m.used
  {
    var n := Shrink(m, b);
    HalvesFit(rs, b);
    SplitSeparate(m.free + m.used, b);
    assert n.free + n.used == m.free + m.used - {b} + {Left(b), Right(b)};
    forall p ensures p in usable <==> Held(n.free, p) || Held(n.used, p) {
      HeldShrink(m, b, p);
    }
  }

  lemma ShrinkOk(rs: seq<Region>, usable: set<nat>, m: Mem, b: Block)
    requires Chained(rs) && MemOk(rs, usable, m) && b in m.used && b.order > 0
    ensures MemOk(rs, usable, Shrink(m, b))
    ensures Left(b) !in m.free && Left(b) !in m.used && Right(b) !in m.free && Right(b) !in m.used
  {
    ShrinkTiles(rs, usable, m, b);
    HalvesFit(rs, b);
    AddKeepsUnmerged(rs, m.free, Right(b));
  }

  lemma HeldShrink(m: Mem, b: Block, p: nat)
    requires b in m.used && b.order > 0
    ensures Held(m.free, p) || Held(m.used, p) <==> Held(Shrink(m, b).free, p) || Held(Shrink(m, b).used, p)
  {
    var n := Shrink(m, b);
    assert Left(b) in n.used && Right(b) in n.free;
    assert In(b, p) <==> In(Left(b), p) || In(Right(b), p);
    if c :| c in m.free && In(c, p) { assert c in n.free; }
    if c :| c in m.used && In(c, p) { assert c == b || c in n.used; }
  }

  lemma GrowTiles(rs: seq<Region>, usable: set<nat>, m: Mem, b: Block)
    requires Chained(rs) && Tiling(rs, usable, m) && b in m.used && Mergeable(rs, m.free, b)
    ensures Tiling(rs, usable, Grow(rs, m, b))
    ensures Parent(rs, b) !in m.used && Parent(rs, b) !in m.free
  {
    var n := Grow(rs, m, b);
    SiblingFits(rs, b);
    JoinSeparate(m.free + m.used, Parent(rs, b));
    assert n.free + n.used == m.free + m.used - {Left(Parent(rs, b)), Right(Parent(rs, b))} + {Parent(rs, b)};
    forall p ensures p in usable <==> Held(n.free, p) || Held(n.used, p) {
      HeldGrow(rs, m, b, p);
    }
  }

  lemma GrowOk(rs: seq<Region>, usable: set<nat>, m: Mem, b: Block)
    requires Chained(rs) && MemOk(rs, usable, m) && b in m.used && Mergeable(rs, m.free, b)
    ensures MemOk(rs, usable, Grow(rs, m, b))
    ensures Parent(rs, b) !in m.used && Parent(rs, b) !in m.free
  {
    GrowTiles(rs, usable, m, b);
  }

  lemma HeldGrow(rs: seq<Region>, m: Mem, b: Block, p: nat)
    requires Chained(rs) && Fits(rs, b) && b in m.used && Mergeable(rs, m.free, b) && Fits(rs, Sibling(rs, b))
    ensures Held(m.free, p) || Held(m.used, p) <==> Held(Grow(rs, m, b).free, p) || Held(Grow(rs, m, b).used, p)
  {
    var n := Grow(rs, m, b);
    SiblingFits(rs, b);
    var q, s := Parent(rs, b), Sibling(rs, b);
    assert q in n.used && (In(q, p) <==> In(b, p) || In(s, p));
    if c :| c in m.free && In(c, p) { assert c == s || c in n.free; }
    if c :| c in m.used && In(c, p) { assert c == b || c in n.used; }
  }

  // ----- whole operations -----

  /** Split the used block `b` down to order `k`, releasing every right half. */
  ghost function Cut(m: Mem, b: Block, k: nat): Mem
    requires k <= b.order
    decreases b.order
  {
    if b.order == k then m else Cut(Shrink(m, b), Left(b), k)
  }

  /** Release the used block `b` after merging it upward as far as it goes. */
  ghost function Merge(rs: seq<Region>, usable: set<nat>, m: Mem, b: Block): Mem
    requires Chained(rs) && MemOk(rs, usable, m) && b in m.used
    decreases MAX_ORDER - b.order
  {
    if Mergeable(rs, m.free, b)
    then GrowOk(rs, usable, m, b); Merge(rs, usable, Grow(rs, m, b), Parent(rs, b))
    else Release(m, b)
  }

  /** One round of the merge loop. */
  lemma MergeStep(rs: seq<Region>, usable: set<nat>, m: Mem, b: Block)
    requires Chained(rs) && MemOk(rs, usable, m) && b in m.used
    ensures Fits(rs, b)
    ensures Mergeable(rs, m.free, b) ==>
      MemOk(rs, usable, Grow(rs, m, b)) && Parent(rs, b) in Grow(rs, m, b).used
      && Merge(rs, usable, m, b) == Merge(rs, usable, Grow(rs, m, b), Parent(rs, b))
    ensures !Mergeable(rs, m.free, b) ==> Merge(rs, usable, m, b) == Release(m, b)
  {
    if Mergeable(rs, m.free, b) { GrowOk(rs, usable, m, b); }
  }

  lemma {:induction false} CutOk(rs: seq<Region>, usable: set<nat>, m: Mem, b: Block, k: nat)
    requires Chained(rs) && MemOk(rs, usable, m) && b in m.used && k <= b.order
    ensures MemOk(rs, usable, Cut(m, b, k))
    ensures Cut(m, b, k).used == m.used - {b} + {Block(b.head, k)}
    decreases b.order
  {
    if b.order > k {
      ShrinkOk(rs, usable, m, b);
      CutOk(rs, usable, Shrink(m, b), Left(b), k);
    } else {
      assert b == Block(b.head, k);
    }
  }

  lemma {:induction false} MergeOk(rs: seq<Region>, usable: set<nat>, m: Mem, b: Block)
    requires Chained(rs) && MemOk(rs, usable, m) && b in m.used
    ensures MemOk(rs, usable, Merge(rs, usable, m, b))
    ensures Merge(rs, usable, m, b).used == m.used - {b}
    decreases MAX_ORDER - b.order
  {
    if Mergeable(rs, m.free, b) {
      GrowOk(rs, usable, m, b);
      MergeOk(rs, usable, Grow(rs, m, b), Parent(rs, b));
      assert b != Parent(rs, b);
    } else {
      ReleaseOk(rs, usable, m, b);
    }
  }

  // ----- canonical coalescing -----

  /** All pages of `b` lie in free blocks. */
  ghost predicate AllFree(m: Mem, b: Block) {
    forall p: nat :: In(b, p) ==> Held(m.free, p)
  }

  /** `b` is free throughout and no larger legal block around it is. */
  ghost predicate Maximal(rs: seq<Region>, m: Mem, b: Block)
    requires Chained(rs)
  {
    && Fits(rs, b) && AllFree(m, b)
    && (forall c :: Fits(rs, c) && Within(b, c) && AllFree(m, c) ==> c == b)
  }

  /** If one free block holds the left half of `b` and one the right half, then one of them holds all of it. */
  lemma HalvesHeldTogether(rs: seq<Region>, usable: set<nat>, m: Mem, b: Block, c: Block, d: Block)
    requires Chained(rs) && MemOk(rs, usable, m) && Fits(rs, b) && b.order > 0
    requires c in m.free && Within(Left(b), c) && b.order - 1 <= c.order
    requires d in m.free && Within(Right(b), d) && b.order - 1 <= d.order
    ensures (Within(b, c) && b.order <= c.order) || (Within(b, d) && b.order <= d.order)
  {
    HalvesFit(rs, b);
    if c.order >= b.order {
      NestOrApart(rs, b, c);
    } else if d.order >= b.order {
      NestOrApart(rs, b, d);
    } else {
      NestOrApart(rs, c, Left(b));
      NestOrApart(rs, d, Right(b));
    }
  }

  /** A legal block of free pages lies inside a single free block. */
  lemma {:induction false} FreeRunInOneBlock(rs: seq<Region>, usable: set<nat>, m: Mem, b: Block) returns (c: Block)
    requires Chained(rs) && MemOk(rs, usable, m) && Fits(rs, b) && AllFree(m, b)
    ensures c in m.free && Within(b, c) && b.order <= c.order
    decreases b.order
  {
    if b.order == 0 {
      assert In(b, b.head);
      c :| c in m.free && In(c, b.head);
    } else {
      HalvesFit(rs, b);
      assert AllFree(m, Left(b)) by { assert forall p: nat :: In(Left(b), p) ==> In(b, p); }
      assert AllFree(m, Right(b)) by { assert forall p: nat :: In(Right(b), p) ==> In(b, p); }
      c := FreeRunInOneBlock(rs, usable, m, Left(b));
      var d := FreeRunInOneBlock(rs, usable, m, Right(b));
      HalvesHeldTogether(rs, usable, m, b, c, d);
      c := if Within(b, c) && b.order <= c.order then c else d;
    }
  }

  /** The free blocks are exactly the maximal legal blocks of free pages. */
  lemma Canonical(rs: seq<Region>, usable: set<nat>, m: Mem, b: Block)
    requires Chained(rs) && MemOk(rs, usable, m)
    ensures b in m.free <==> Maximal(rs, m, b)
  {
    hide Pow2, Chained, Total;
    if b in m.free {
      forall c | Fits(rs, c) && Within(b, c) && AllFree(m, c) ensures c == b {
        var d := FreeRunInOneBlock(rs, usable, m, c);
        assert b == d;
        NestOrApart(rs, c, b);
        if c.order < b.order { Pow2Monotone(c.order, b.order); }
      }
    }
    if Maximal(rs, m, b) {
      var d := FreeRunInOneBlock(rs, usable, m, b);
      assert AllFree(m, d);
    }
  }

  // ----- runs -----

  /** Same usable pages and same used blocks leave no choice for the free blocks. */
  lemma FreeDeterminedByUsed(rs: seq<Region>, usable: set<nat>, m: Mem, n: Mem)
    requires Chained(rs) && MemOk(rs, usable, m) && MemOk(rs, usable, n)
    requires forall p: nat :: Held(m.used, p) <==> Held(n.used, p)
    ensures m.free == n.free
  {
    forall p: nat ensures Held(m.free, p) <==> Held(n.free, p) {
      FreeIsNotUsed(rs, usable, m, p);
      FreeIsNotUsed(rs, usable, n, p);
    }
    forall b ensures b in m.free <==> b in n.free {
      Canonical(rs, usable, m, b);
      Canonical(rs, usable, n, b);
      assert forall c :: AllFree(m, c) <==> AllFree(n, c);
    }
  }

  lemma FreeIsNotUsed(rs: seq<Region>, usable: set<nat>, m: Mem, p: nat)
    requires Chained(rs) && Tiling(rs, usable, m)
    ensures Held(m.free, p) <==> p in usable && !Held(m.used, p)
  {
    if b :| b in m.free && In(b, p) {
      forall c | c in m.used ensures !In(c, p) {
        assert b in m.free + m.used && c in m.free + m.used;
      }
    }
  }

  /** One call of the page allocator, by the block it takes or returns. */
  datatype Op = Alloc(from: Block, order: nat) | Free(block: Block)

  ghost predicate Enabled(m: Mem, op: Op) {
    match op
    case Alloc(b, k) => b in m.free && k <= b.order
    case Free(b) => b in m.used
  }

  ghost function Apply(rs: seq<Region>, usable: set<nat>, m: Mem, op: Op): Mem
    requires Chained(rs) && MemOk(rs, usable, m) && Enabled(m, op)
  {
    match op
    case Alloc(b, k) => Cut(Take(m, b), b, k)
    case Free(b) => Merge(rs, usable, m, b)
  }

  /** What an allocation hands out was part of one free block, so it meets nothing in use. */
  lemma AllocatedApart(rs: seq<Region>, usable: set<nat>, m: Mem, b: Block, k: nat)
    requires Chained(rs) && Tiling(rs, usable, m) && b in m.free && k <= b.order
    ensures forall c :: c in m.used ==> Apart(c, Block(b.head, k))
  {
    Pow2Monotone(k, b.order);
    assert b in m.free + m.used;
    assert forall c :: c in m.used ==> c in m.free + m.used && c != b;
  }

  lemma AllocOk(rs: seq<Region>, usable: set<nat>, m: Mem, b: Block, k: nat)
    requires Chained(rs) && MemOk(rs, usable, m) && b in m.free && k <= b.order
    ensures MemOk(rs, usable, Cut(Take(m, b), b, k))
    ensures Cut(Take(m, b), b, k).used == m.used + {Block(b.head, k)}
  {
    TakeOk(rs, usable, m, b);
    CutOk(rs, usable, Take(m, b), b, k);
    assert Take(m, b).used - {b} == m.used;
  }

  lemma ApplyOk(rs: seq<Region>, usable: set<nat>, m: Mem, op: Op)
    requires Chained(rs) && MemOk(rs, usable, m) && Enabled(m, op)
    ensures MemOk(rs, usable, Apply(rs, usable, m, op))
  {
    match op
    case Alloc(b, k) => AllocOk(rs, usable, m, b, k);
    case Free(b) => MergeOk(rs, usable, m, b);
  }

  /** `states` is a run of the allocator performing `ops`. */
  ghost predicate Run(rs: seq<Region>, usable: set<nat>, states: seq<Mem>, ops: seq<Op>)
    requires Chained(rs)
  {
    && |states| == |ops| + 1
    && MemOk(rs, usable, states[0])
    && (forall i :: 0 <= i < |ops| && MemOk(rs, usable, states[i]) ==>
          Enabled(states[i], ops[i]) && states[i + 1] == Apply(rs, usable, states[i], ops[i]))
  }

  lemma {:induction false} RunOk(rs: seq<Region>, usable: set<nat>, states: seq<Mem>, ops: seq<Op>, i: nat)
    requires Chained(rs) && Run(rs, usable, states, ops) && i < |states|
    ensures MemOk(rs, usable, states[i])
  {
    if i > 0 {
      RunOk(rs, usable, states, ops, i - 1);
      ApplyOk(rs, usable, states[i - 1], ops[i - 1]);
    }
  }

  /** Whatever happened in between, the same blocks in use mean the same free blocks. */
  lemma AnyOrderRestores(rs: seq<Region>, usable: set<nat>, states: seq<Mem>, ops: seq<Op>, i: nat, j: nat)
    requires Chained(rs) && Run(rs, usable, states, ops) && i < |states| && j < |states|
    requires states[i].used == states[j].used
    ensures states[i] == states[j]
  {
    RunOk(rs, usable, states, ops, i);
    RunOk(rs, usable, states, ops, j);
    FreeDeterminedByUsed(rs, usable, states[i], states[j]);
  }
}
