/**
 The frame tags and the free lists: how they represent a set of blocks.
 Everything here is about values; the allocator's methods update the arrays.
 */
module Frames {
  import opened Bits
  import opened Blocks
  import opened Links

  // State tags. A free head holds its order, an allocated head FRAME_ALLOC_BASE - order.
  const FRAME_BUDDY: int := -1
  const FRAME_USED: int := -2
  const FRAME_ALLOC_BASE: int := -100

  /** Upper-layer owner of an allocated block. */
  datatype Kind = NoKind | SlabKind | LargeKind

  /** One page: its tag and its owner. The list links of a free head are kept separately. */
  datatype Frame = Frame(state: int, kind: Kind)

  // ----- tags -----

  ghost predicate FreeTagged(fs: seq<Frame>, b: Block) {
    && End(b) <= |fs| && fs[b.head].state == b.order
    && (forall p :: b.head < p < End(b) ==> fs[p].state == FRAME_BUDDY)
  }

  ghost predicate UsedTagged(fs: seq<Frame>, b: Block) {
    && End(b) <= |fs| && fs[b.head].state == FRAME_ALLOC_BASE - b.order
    && (forall p :: b.head < p < End(b) ==> fs[p].state == FRAME_USED)
  }

  /** The tags describe every block except those an operation holds in `hand`. */
  ghost predicate TagsOk(usable: set<nat>, m: Mem, fs: seq<Frame>, hand: set<Block>) {
    && (forall b :: b in m.free ==> FreeTagged(fs, b))
    && (forall b :: b in m.used && b !in hand ==> UsedTagged(fs, b))
    && (forall p :: 0 <= p < |fs| && p !in usable ==> fs[p].state == FRAME_USED)
  }

  ghost predicate Heads(s: set<Block>, p: nat) {
    exists b :: b in s && b.head == p
  }

  ghost predicate Inside(s: set<Block>, p: nat) {
    exists b :: b in s && In(b, p) && b.head != p
  }

  lemma Meet(b: Block, c: Block, p: nat)
    requires In(b, p) && In(c, p)
    ensures !Apart(b, c)
  {
  }

  /** The one block that holds a usable page. */
  lemma Holder(rs: seq<Region>, usable: set<nat>, m: Mem, p: nat) returns (b: Block)
    requires Chained(rs) && Tiling(rs, usable, m) && p in usable
    ensures (b in m.free || b in m.used) && (b in m.free ==> b !in m.used) && In(b, p)
    ensures HeldOnlyBy(m.free, p, b) && HeldOnlyBy(m.used, p, b)
  {
    b :| b in m.free + m.used && In(b, p);
    forall c | c in m.free + m.used && In(c, p) ensures c == b {
      Meet(b, c, p);
    }
  }

  ghost predicate HeldOnlyBy(s: set<Block>, p: nat, b: Block) {
    forall c :: c in s && In(c, p) ==> c == b
  }

  lemma HeldFacts(s: set<Block>, p: nat, b: Block)
    requires HeldOnlyBy(s, p, b) && In(b, p)
    ensures Heads(s, p) <==> b in s && b.head == p
    ensures Inside(s, p) <==> b in s && b.head != p
  {
    assert forall c :: c in s && c.head == p ==> In(c, p);
  }

  lemma NotHeld(rs: seq<Region>, usable: set<nat>, m: Mem, p: nat)
    requires Chained(rs) && Tiling(rs, usable, m) && p !in usable
    ensures !Heads(m.free, p) && !Heads(m.used, p) && !Inside(m.free, p) && !Inside(m.used, p)
  {
    hide Fits, Pow2;
    assert !Held(m.free, p) && !Held(m.used, p);
    assert forall c: Block :: c.head == p ==> In(c, p);
  }

  /**
   Outside the hand, the tag tells whether the page heads a free block, lies inside one, heads an allocated block, or
   is none of these: inside an allocated block or reserved.
   */
  lemma TagTells(rs: seq<Region>, usable: set<nat>, m: Mem, fs: seq<Frame>, hand: set<Block>, p: nat)
    requires Chained(rs) && Tiling(rs, usable, m) && TagsOk(usable, m, fs, hand)
    requires p < |fs| && !Held(hand, p)
    ensures fs[p].state >= 0 <==> Heads(m.free, p)
    ensures fs[p].state >= 0 ==> Block(p, fs[p].state) in m.free
    ensures fs[p].state == FRAME_BUDDY <==> Inside(m.free, p)
    ensures fs[p].state <= FRAME_ALLOC_BASE <==> Heads(m.used, p)
    ensures fs[p].state <= FRAME_ALLOC_BASE ==> Block(p, FRAME_ALLOC_BASE - fs[p].state) in m.used
    ensures fs[p].state == FRAME_USED <==> Inside(m.used, p) || p !in usable
  {
    hide Tiling, Heads, Inside, Pow2, HeldOnlyBy;
    if p in usable {
      var b := Holder(rs, usable, m, p);
      HeldFacts(m.free, p, b);
      HeldFacts(m.used, p, b);
      assert b in m.free ==> FreeTagged(fs, b);
      assert b in m.used ==> b !in hand && UsedTagged(fs, b);
      assert b.head == p ==> b == Block(p, b.order);
    } else {
      NotHeld(rs, usable, m, p);
    }
  }

  /** Kinds stay, and only the pages of `b` change their tag. */
  ghost predicate SameStates(fs: seq<Frame>, gs: seq<Frame>, b: Block) {
    && |fs| == |gs| && End(b) <= |fs|
    && (forall p :: 0 <= p < |fs| ==> fs[p].kind == gs[p].kind)
    && (forall p :: 0 <= p < |fs| && !In(b, p) ==> fs[p].state == gs[p].state)
  }

  lemma TaggedOutside(fs: seq<Frame>, gs: seq<Frame>, b: Block, c: Block)
    requires SameStates(fs, gs, b) && Apart(b, c)
    ensures FreeTagged(fs, c) ==> FreeTagged(gs, c)
    ensures UsedTagged(fs, c) ==> UsedTagged(gs, c)
  {
  }

  /** Disjointness, one pair at a time. */
  lemma ApartFromHand(rs: seq<Region>, usable: set<nat>, m: Mem, h: Block, c: Block)
    requires Chained(rs) && Tiling(rs, usable, m) && h in m.used
    requires c in m.free || (c in m.used && c != h)
    ensures Apart(h, c)
  {
    assert h in m.free + m.used && c in m.free + m.used;
  }

  lemma HandUsable(rs: seq<Region>, usable: set<nat>, m: Mem, h: Block, p: nat)
    requires Chained(rs) && Tiling(rs, usable, m) && (h in m.used || h in m.free)
    ensures In(h, p) ==> p in usable
  {
    assert In(h, p) ==> Held(m.used, p) || Held(m.free, p);
  }

  /** Writing the pages of the block in hand leaves all other tags valid. */
  lemma TagsAfterMark(rs: seq<Region>, usable: set<nat>, m: Mem, fs: seq<Frame>, gs: seq<Frame>, h: Block)
    requires Chained(rs) && Tiling(rs, usable, m) && TagsOk(usable, m, fs, {h}) && h in m.used
    requires SameStates(fs, gs, h)
    ensures TagsOk(usable, m, gs, {h})
  {
    forall c | c in m.free ensures FreeTagged(gs, c) {
      ApartFromHand(rs, usable, m, h, c);
      TaggedOutside(fs, gs, h, c);
    }
    forall c | c in m.used && c != h ensures UsedTagged(gs, c) {
      ApartFromHand(rs, usable, m, h, c);
      TaggedOutside(fs, gs, h, c);
    }
    forall p | 0 <= p < |gs| && p !in usable ensures gs[p].state == FRAME_USED {
      HandUsable(rs, usable, m, h, p);
    }
  }

  // ----- lists against the set of free blocks -----

  ghost predicate ListsMatch(free: set<Block>, lists: seq<seq<nat>>) {
    && |lists| == MAX_ORDER + 1
    && (forall o, x :: 0 <= o < |lists| && x in lists[o] ==> Block(x, o) in free)
    && (forall b :: b in free ==> b.order < |lists| && b.head in lists[b.order])
  }

  /** A page of a used block is on no free list. */
  lemma UsedNotListed(rs: seq<Region>, usable: set<nat>, m: Mem, lists: seq<seq<nat>>, h: Block, p: nat)
    requires Chained(rs) && Tiling(rs, usable, m) && ListsMatch(m.free, lists) && h in m.used && In(h, p)
    ensures !OnList(lists, p)
  {
    assert h in m.free + m.used;
    forall b | b in m.free ensures b.head != p {
      assert b in m.free + m.used;
    }
  }

  lemma ListsPush(free: set<Block>, lists: seq<seq<nat>>, b: Block)
    requires ListsMatch(free, lists) && b.order <= MAX_ORDER
    ensures ListsMatch(free + {b}, lists[b.order := [b.head] + lists[b.order]])
  {
  }

  lemma ListsRemove(free: set<Block>, lists: seq<seq<nat>>, t: seq<nat>, b: Block, i: nat)
    requires ListsMatch(free, lists) && b.order <= MAX_ORDER && Distinct(lists)
    requires IsWithout(t, lists[b.order], i) && lists[b.order][i] == b.head
    ensures ListsMatch(free - {b}, lists[b.order := t])
  {
    WithoutMembers(t, lists[b.order], i);
  }

  // ----- representation: what the arrays say about the blocks -----

  ghost predicate Represents(rs: seq<Region>, usable: set<nat>, m: Mem, lists: seq<seq<nat>>, fs: seq<Frame>, hand: set<Block>)
    requires Chained(rs)
  {
    MemOk(rs, usable, m) && TagsOk(usable, m, fs, hand) && ListsMatch(m.free, lists)
  }

  lemma SplitTags(usable: set<nat>, m: Mem, fs: seq<Frame>, hand: Block)
    requires TagsOk(usable, m, fs, {hand}) && hand.order > 0 && FreeTagged(fs, Right(hand))
    ensures TagsOk(usable, Shrink(m, hand), fs, {Left(hand)})
  {
  }

  lemma UsedFits(rs: seq<Region>, usable: set<nat>, m: Mem, b: Block)
    requires Chained(rs) && MemOk(rs, usable, m) && b in m.used
    ensures Fits(rs, b) && b.order <= MAX_ORDER
  {
  }

  /** Split the block in hand: the right half is tagged free and pushed, the left half stays in hand. */
  lemma SplitRepresents(rs: seq<Region>, usable: set<nat>, m: Mem, lists: seq<seq<nat>>,
                        fs: seq<Frame>, gs: seq<Frame>, hand: Block)
    requires Chained(rs) && Represents(rs, usable, m, lists, fs, {hand}) && hand in m.used && hand.order > 0
    requires SameStates(fs, gs, hand) && FreeTagged(gs, Right(hand))
    ensures hand.order <= MAX_ORDER
    ensures Represents(rs, usable, Shrink(m, hand),
                       lists[hand.order - 1 := [Right(hand).head] + lists[hand.order - 1]], gs, {Left(hand)})
    ensures Left(hand) in Shrink(m, hand).used
  {
    hide Tiling, TagsOk, ListsMatch, SameStates, FreeTagged, Fits, Pow2;
    UsedFits(rs, usable, m, hand);
    ShrinkOk(rs, usable, m, hand);
    TagsAfterMark(rs, usable, m, fs, gs, hand);
    SplitTags(usable, m, gs, hand);
    ListsPush(m.free, lists, Right(hand));
  }

  /** What the callers need to know about one used block. */
  lemma UsedBlock(rs: seq<Region>, usable: set<nat>, m: Mem, lists: seq<seq<nat>>, fs: seq<Frame>, hand: set<Block>, b: Block)
    requires Chained(rs) && Represents(rs, usable, m, lists, fs, hand) && b in m.used
    ensures Fits(rs, b) && b.order <= MAX_ORDER && End(b) <= Total(rs) && b.head in usable
    ensures !OnList(lists, b.head) && (b.order > 0 ==> !OnList(lists, Right(b).head))
  {
    HandUsable(rs, usable, m, b, b.head);
    UsedNotListed(rs, usable, m, lists, b, b.head);
    if b.order > 0 {
      UsedNotListed(rs, usable, m, lists, b, Right(b).head);
    }
  }

  /** Unlink a free block and take it in hand. */
  lemma TakeRepresents(rs: seq<Region>, usable: set<nat>, m: Mem, lists: seq<seq<nat>>, t: seq<nat>,
                       fs: seq<Frame>, b: Block, i: nat)
    requires Chained(rs) && Represents(rs, usable, m, lists, fs, {}) && Distinct(lists)
    requires b.order <= MAX_ORDER && IsWithout(t, lists[b.order], i) && lists[b.order][i] == b.head
    ensures b in m.free
    ensures Represents(rs, usable, Take(m, b), lists[b.order := t], fs, {b})
  {
    TakeOk(rs, usable, m, b);
    ListsRemove(m.free, lists, t, b, i);
  }

  /** Tag the block in hand as allocated. */
  lemma SettleRepresents(rs: seq<Region>, usable: set<nat>, m: Mem, lists: seq<seq<nat>>,
                         fs: seq<Frame>, gs: seq<Frame>, b: Block)
    requires Chained(rs) && Represents(rs, usable, m, lists, fs, {b}) && b in m.used
    requires SameStates(fs, gs, b) && UsedTagged(gs, b)
    ensures Represents(rs, usable, m, lists, gs, {})
  {
    TagsAfterMark(rs, usable, m, fs, gs, b);
  }

  /** No legal block that holds `pages` pages is free. */
  ghost predicate Exhausted(rs: seq<Region>, m: Mem, pages: nat)
    requires Chained(rs)
  {
    forall b :: Fits(rs, b) && pages <= Pow2(b.order) ==> !AllFree(m, b)
  }

  /** `2^k` is the smallest power of two that holds `pages` pages. */
  ghost predicate IsOrderFor(pages: nat, k: nat) {
    pages <= Pow2(k) && forall j :: 0 <= j < k ==> Pow2(j) < pages
  }

  /** No free block of order `k` or more is smaller than `from`. */
  ghost predicate SmallestFrom(free: set<Block>, from: Block, k: nat) {
    from in free && k <= from.order && forall b :: b in free && k <= b.order ==> from.order <= b.order
  }

  /** A free block that is large enough is such a run. */
  lemma NotExhausted(rs: seq<Region>, usable: set<nat>, m: Mem, from: Block, k: nat, pages: nat)
    requires Chained(rs) && MemOk(rs, usable, m) && SmallestFrom(m.free, from, k) && IsOrderFor(pages, k)
    ensures !Exhausted(rs, m, pages)
  {
    Pow2Monotone(k, from.order);
    assert Fits(rs, from);
    assert AllFree(m, from);
  }

  /** Empty lists from order `k` up mean that no legal block of that size is free. */
  lemma NoFreeRun(rs: seq<Region>, usable: set<nat>, m: Mem, lists: seq<seq<nat>>, fs: seq<Frame>, pages: nat, k: nat)
    requires Chained(rs) && Represents(rs, usable, m, lists, fs, {}) && IsOrderFor(pages, k)
    requires forall o :: k <= o <= MAX_ORDER ==> lists[o] == []
    ensures Exhausted(rs, m, pages)
  {
    forall b | Fits(rs, b) && pages <= Pow2(b.order) ensures !AllFree(m, b) {
      if AllFree(m, b) {
        var c := FreeRunInOneBlock(rs, usable, m, b);
      }
    }
  }

  lemma FirstListSmallest(rs: seq<Region>, usable: set<nat>, m: Mem, lists: seq<seq<nat>>, fs: seq<Frame>, k: nat, cur: nat)
    requires Chained(rs) && Represents(rs, usable, m, lists, fs, {}) && k <= cur <= MAX_ORDER < |lists| && lists[cur] != []
    requires forall o :: k <= o < cur ==> lists[o] == []
    ensures SmallestFrom(m.free, Block(lists[cur][0], cur), k)
  {
    forall b | b in m.free && k <= b.order ensures cur <= b.order {
      assert b.head in lists[b.order];
    }
  }

  lemma SiblingOutside(rs: seq<Region>, h: Block)
    requires Chained(rs) && Fits(rs, h)
    ensures !In(h, Sibling(rs, h).head)
  {
    XorSibling(h.head - Lo(rs, h.head), h.order);
  }

  lemma RepresentsOk(rs: seq<Region>, usable: set<nat>, m: Mem, lists: seq<seq<nat>>, fs: seq<Frame>, hand: set<Block>)
    requires Chained(rs) && Represents(rs, usable, m, lists, fs, hand)
    ensures MemOk(rs, usable, m)
  {
  }

  /** The code's test for a free sibling is exact. */
  lemma SiblingTag(rs: seq<Region>, usable: set<nat>, m: Mem, lists: seq<seq<nat>>, fs: seq<Frame>, h: Block)
    requires Chained(rs) && Represents(rs, usable, m, lists, fs, {h}) && h in m.used && |fs| == Total(rs)
    requires Fits(rs, h) && Sibling(rs, h).head < Hi(rs, h.head)
    ensures fs[Sibling(rs, h).head].state == h.order <==> Sibling(rs, h) in m.free
  {
    var s := Sibling(rs, h);
    SiblingOutside(rs, h);
    assert !Held({h}, s.head);
    hide Sibling, Fits, Separate, In, Mergeable;
    TagTells(rs, usable, m, fs, {h}, s.head);
    assert s in m.free ==> FreeTagged(fs, s);
  }

  /** Where a free sibling sits on its list. */
  ghost function PositionOf(rs: seq<Region>, usable: set<nat>, m: Mem, lists: seq<seq<nat>>, fs: seq<Frame>, h: Block): (i: nat)
    requires Chained(rs) && Represents(rs, usable, m, lists, fs, {h}) && Fits(rs, h) && Sibling(rs, h) in m.free
    ensures h.order < |lists| && i < |lists[h.order]| && lists[h.order][i] == Sibling(rs, h).head
  {
    var s := lists[h.order];
    var i :| 0 <= i < |s| && s[i] == Sibling(rs, h).head;
    i
  }

  /** Unlink the free sibling of the block in hand and merge the two. */
  lemma GrowRepresents(rs: seq<Region>, usable: set<nat>, m: Mem, lists: seq<seq<nat>>, t: seq<nat>,
                       fs: seq<Frame>, h: Block, i: nat)
    requires Chained(rs) && Represents(rs, usable, m, lists, fs, {h}) && h in m.used && Fits(rs, h)
    requires Distinct(lists) && Mergeable(rs, m.free, h)
    requires h.order < |lists| && IsWithout(t, lists[h.order], i) && lists[h.order][i] == Sibling(rs, h).head
    ensures Represents(rs, usable, Grow(rs, m, h), lists[h.order := t], fs, {Parent(rs, h)})
    ensures Parent(rs, h) in Grow(rs, m, h).used
  {
    hide Tiling, Mergeable, ListsMatch, IsWithout, Distinct;
    GrowOk(rs, usable, m, h);
    ListsRemove(m.free, lists, t, Sibling(rs, h), i);
  }

  /** Tag the block in hand as free and put it on its list. */
  lemma ReleaseRepresents(rs: seq<Region>, usable: set<nat>, m: Mem, lists: seq<seq<nat>>,
                          fs: seq<Frame>, gs: seq<Frame>, h: Block)
    requires Chained(rs) && Represents(rs, usable, m, lists, fs, {h}) && h in m.used && Fits(rs, h)
    requires SameStates(fs, gs, h) && FreeTagged(gs, h) && !Mergeable(rs, m.free, h) && h.order < |lists|
    ensures Represents(rs, usable, Release(m, h), lists[h.order := [h.head] + lists[h.order]], gs, {})
  {
    hide Tiling, ListsMatch, SameStates;
    ReleaseOk(rs, usable, m, h);
    TagsAfterMark(rs, usable, m, fs, gs, h);
    ListsPush(m.free, lists, h);
  }

  lemma HandIn(rs: seq<Region>, usable: set<nat>, m: Mem, lists: seq<seq<nat>>, fs: seq<Frame>, h: Block)
    requires Chained(rs) && Represents(rs, usable, m, lists, fs, {})
    ensures Represents(rs, usable, m, lists, fs, {h})
  {
  }

  /** The tag of a page tells whether an allocated block starts there, and of which order. */
  lemma UsedTag(rs: seq<Region>, usable: set<nat>, m: Mem, lists: seq<seq<nat>>, fs: seq<Frame>, p: nat)
    requires Chained(rs) && Represents(rs, usable, m, lists, fs, {}) && p < |fs|
    ensures fs[p].state <= FRAME_ALLOC_BASE ==> Block(p, FRAME_ALLOC_BASE - fs[p].state) in m.used
    ensures fs[p].state > FRAME_ALLOC_BASE ==> forall b :: b in m.used ==> b.head != p
  {
    TagTells(rs, usable, m, fs, {}, p);
    forall b | b in m.used ensures UsedTagged(fs, b) {}
  }

  /** The invariant does not look at kinds. */
  lemma KindKeeps(rs: seq<Region>, usable: set<nat>, m: Mem, lists: seq<seq<nat>>, fs: seq<Frame>, gs: seq<Frame>)
    requires Chained(rs) && Represents(rs, usable, m, lists, fs, {}) && |fs| == |gs|
    requires forall p :: 0 <= p < |fs| ==> fs[p].state == gs[p].state
    ensures Represents(rs, usable, m, lists, gs, {})
  {
    forall b | b in m.free ensures FreeTagged(gs, b) { assert FreeTagged(fs, b); }
    forall b | b in m.used ensures UsedTagged(gs, b) { assert UsedTagged(fs, b); }
  }

  lemma UnusableTag(rs: seq<Region>, usable: set<nat>, m: Mem, lists: seq<seq<nat>>, fs: seq<Frame>, p: nat)
    requires Chained(rs) && Represents(rs, usable, m, lists, fs, {}) && p < |fs| && p !in usable
    ensures fs[p].state == FRAME_USED
  {
  }
}
