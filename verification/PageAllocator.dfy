/** The buddy page allocator of kernel/src/memory.c: frame array, free lists, split and merge. */
module PageAllocator {
  import opened Bits
  import opened Blocks
  import opened Links
  import opened Frames
  import opened Carving
  import opened PageCount

  const PAGE_SIZE: nat := 4096
  /** Pages in the largest block. */
  const MAX_PAGES: nat := 0x10_0000
  const U64_MAX: nat := 0xFFFF_FFFF_FFFF_FFFF

  // ----- page indices and physical addresses -----

  ghost predicate AddressesOk(rs: seq<Region>) {
    && (forall i :: 0 <= i < |rs| ==>
      rs[i].base % PAGE_SIZE == 0 && rs[i].size == rs[i].pages * PAGE_SIZE && rs[i].base + rs[i].size <= U64_MAX)
    && (forall i, j :: 0 <= i < j < |rs| ==>
      rs[i].base + rs[i].size <= rs[j].base || rs[j].base + rs[j].size <= rs[i].base)
  }

  ghost function AddressOf(rs: seq<Region>, p: nat): nat
    requires Chained(rs) && p < Total(rs)
  {
    var r := RegionAt(rs, p);
    rs[r].base + (p - rs[r].first) * PAGE_SIZE
  }

  /** Address `pa` lies in region `r` only. */
  lemma AddressRegion(rs: seq<Region>, p: nat, r: nat)
    requires Chained(rs) && AddressesOk(rs) && p < Total(rs) && r < |rs|
    ensures rs[r].base <= AddressOf(rs, p) < rs[r].base + rs[r].size <==> r == RegionAt(rs, p)
    ensures AddressOf(rs, p) % PAGE_SIZE == 0 && AddressOf(rs, p) < U64_MAX
  {
  }

  /** Different pages have different addresses. */
  lemma AddressInjective(rs: seq<Region>, p: nat, q: nat)
    requires Chained(rs) && AddressesOk(rs) && p < Total(rs) && q < Total(rs)
    requires AddressOf(rs, p) == AddressOf(rs, q)
    ensures p == q
  {
    AddressRegion(rs, p, RegionAt(rs, q));
    AddressRegion(rs, q, RegionAt(rs, q));
  }

  /** The page that address `pa` of region `r` starts, if it starts one. */
  lemma PageAt(rs: seq<Region>, pa: nat, r: nat)
    requires Chained(rs) && AddressesOk(rs) && r < |rs| && rs[r].base <= pa < rs[r].base + rs[r].size
    ensures (pa - rs[r].base) / PAGE_SIZE < rs[r].pages
    ensures pa % PAGE_SIZE == 0 <==> (pa - rs[r].base) % PAGE_SIZE == 0
    ensures var p := rs[r].first + (pa - rs[r].base) / PAGE_SIZE;
            p < Total(rs) && (pa % PAGE_SIZE == 0 ==> AddressOf(rs, p) == pa)
    ensures pa % PAGE_SIZE != 0 ==> forall p :: 0 <= p < Total(rs) ==> AddressOf(rs, p) != pa
  {
    RegionAtUnique(rs, rs[r].first + (pa - rs[r].base) / PAGE_SIZE, r);
    forall p | 0 <= p < Total(rs) ensures AddressOf(rs, p) % PAGE_SIZE == 0 { AddressRegion(rs, p, r); }
  }

  /** A reserved byte range, rounded to pages. */
  datatype Range = Range(start: nat, end: nat)

  ghost predicate Reserved(reserves: seq<Range>, pa: nat) {
    exists i :: 0 <= i < |reserves| && reserves[i].start <= pa < reserves[i].end
  }

  /** The pages whose address no reservation covers. */
  ghost function Unreserved(rs: seq<Region>, reserves: seq<Range>): set<nat>
    requires Chained(rs)
  {
    set p: nat | p < Total(rs) && !Reserved(reserves, AddressOf(rs, p))
  }

  lemma UnreservedPages(rs: seq<Region>, reserves: seq<Range>)
    requires Chained(rs) && Reserved(reserves, 0)
    ensures forall p :: p in Unreserved(rs, reserves) ==> p < Total(rs) && AddressOf(rs, p) != 0
  {
  }

  method IsReserved(reserves: seq<Range>, pa: nat) returns (r: bool)
    ensures r <==> Reserved(reserves, pa)
  {
    for i := 0 to |reserves|
      invariant forall j :: 0 <= j < i ==> !(reserves[j].start <= pa < reserves[j].end)
    {
      if reserves[i].start <= pa < reserves[i].end { return true; }
    }
    return false;
  }

  lemma PageReserved(rs: seq<Region>, reserves: seq<Range>, pages: set<nat>, r: nat, p: nat)
    requires Chained(rs) && r < |rs| && p < rs[r].pages && pages == Unreserved(rs, reserves)
    ensures rs[r].first + p < Total(rs)
    ensures rs[r].first + p in pages <==> !Reserved(reserves, rs[r].base + p * PAGE_SIZE)
  {
    RegionAtUnique(rs, rs[r].first + p, r);
  }

  /** An address outside every region is no page. */
  lemma NoPageAt(rs: seq<Region>, pa: nat)
    requires Chained(rs) && AddressesOk(rs)
    requires forall r :: 0 <= r < |rs| ==> !(rs[r].base <= pa < rs[r].base + rs[r].size)
    ensures forall p :: 0 <= p < Total(rs) ==> AddressOf(rs, p) != pa
  {
    forall p | 0 <= p < Total(rs) ensures AddressOf(rs, p) != pa { AddressRegion(rs, p, RegionAt(rs, p)); }
  }

  lemma AlwaysAligned(s: nat)
    ensures Aligned(s, 0)
  {
  }

  lemma AtMostMax(pages: nat, k: nat)
    requires IsOrderFor(pages, k) && k <= MAX_ORDER
    ensures pages <= MAX_PAGES
  {
    Pow2Monotone(k, MAX_ORDER);
    Pow2Of20();
  }

  class Allocator {
    const regions: seq<Region>
    const managed: nat
    // One region only: conversions skip the scan.
    const directMap: bool
    const directBase: nat
    const directFirst: nat
    const directLast: nat
    // Per page: tag and owner, and the links of free block heads. Per order: first free block or -1.
    const frames: array<Frame>
    const links: array<Link>
    const heads: array<int>
    var ready: bool
    var allocCount: nat
    var freeCount: nat

    // The pages that may be handed out, the blocks they form, and the free lists as sequences.
    ghost var usable: set<nat>
    ghost var mem: Mem
    ghost var lists: seq<seq<nat>>

    ghost predicate Geometry() {
      && Chained(regions) && AddressesOk(regions)
      && managed == Total(regions) == frames.Length == links.Length && heads.Length == MAX_ORDER + 1
      && (directMap <==> |regions| == 1)
      && (directMap ==>
        directBase == regions[0].base && directFirst == regions[0].first
        && directLast == regions[0].first + regions[0].pages)
    }

    /** Every free list is a doubly linked list through the links, and they share no page. */
    ghost predicate FreeListsOk()
      reads `lists, links, heads
    {
      |lists| == MAX_ORDER + 1 && LinksOk(links[..], heads[..], lists)
    }

    /** The invariant while the blocks of `hand` are being split or merged. */
    ghost predicate Core(hand: set<Block>)
      reads this, frames, links, heads
    {
      && Geometry()
      && Represents(regions, usable, mem, lists, frames[..], hand)
      && FreeListsOk()
    }

    ghost predicate Valid()
      reads this, frames, links, heads
    {
      && Core({})
      && (forall p :: p in usable ==> p < managed && AddressOf(regions, p) != 0)
    }

    // ----- conversions -----

    method FindRegionByIndex(idx: nat) returns (found: bool, rid: nat)
      requires Geometry()
      ensures found <==> idx < managed
      ensures found ==> rid == RegionAt(regions, idx)
    {
      if directMap {
        RegionAtUniqueIf(regions, idx, 0);
        return directFirst <= idx < directLast, 0;
      }
      rid := 0;
      while rid < |regions|
        invariant rid <= |regions|
        invariant forall r :: 0 <= r < rid ==> !(regions[r].first <= idx < regions[r].first + regions[r].pages)
      {
        if regions[rid].first <= idx < regions[rid].first + regions[rid].pages {
          RegionAtUnique(regions, idx, rid);
          return true, rid;
        }
        rid := rid + 1;
      }
      assert idx < managed ==> RegionAt(regions, idx) < |regions|;
      return false, 0;
    }

    method IndexToPa(idx: nat) returns (ok: bool, pa: nat)
      requires Geometry()
      ensures ok <==> idx < managed
      ensures ok ==> pa == AddressOf(regions, idx)
    {
      if directMap {
        RegionAtUniqueIf(regions, idx, 0);
        if idx < directFirst || idx >= directLast { return false, 0; }
        return true, directBase + (idx - directFirst) * PAGE_SIZE;
      }
      var found, rid := FindRegionByIndex(idx);
      if !found { return false, 0; }
      return true, regions[rid].base + (idx - regions[rid].first) * PAGE_SIZE;
    }

    method PaToIndex(pa: nat) returns (ok: bool, idx: nat)
      requires Geometry()
      ensures ok ==> idx < managed && AddressOf(regions, idx) == pa
      ensures !ok ==> forall p :: 0 <= p < managed ==> AddressOf(regions, p) != pa
    {
      hide AddressOf;
      if directMap {
        var end := directBase + (directLast - directFirst) * PAGE_SIZE;
        if pa < directBase || pa >= end || pa % PAGE_SIZE != 0 {
          if directBase <= pa < end { PageAt(regions, pa, 0); } else { NoPageAt(regions, pa); }
          return false, 0;
        }
        PageAt(regions, pa, 0);
        return true, directFirst + (pa - directBase) / PAGE_SIZE;
      }
      var rid := 0;
      while rid < |regions|
        invariant rid <= |regions|
        invariant forall r :: 0 <= r < rid ==> !(regions[r].base <= pa < regions[r].base + regions[r].size)
      {
        var base, end := regions[rid].base, regions[rid].base + regions[rid].size;
        if base <= pa < end {
          var off := pa - base;
          var page := off / PAGE_SIZE;
          PageAt(regions, pa, rid);
          if off % PAGE_SIZE != 0 || page >= regions[rid].pages { return false, 0; }
          return true, regions[rid].first + page;
        }
        rid := rid + 1;
      }
      NoPageAt(regions, pa);
      return false, 0;
    }

    // ----- free lists -----

    method FreelistPush(order: nat, idx: nat)
      requires FreeListsOk() && order <= MAX_ORDER && idx < links.Length && !OnList(lists, idx)
      modifies links, heads, `lists
      ensures FreeListsOk()
      ensures lists == old(lists)[order := [idx] + old(lists[order])]
    {
      ghost var ls, hs := links[..], heads[..];
      var oldHead := heads[order];
      assert oldHead >= 0 ==> lists[order][0] == oldHead && oldHead in lists[order];
      links[idx] := links[idx].(prev := -1, next := oldHead);
      if oldHead >= 0 {
        links[oldHead] := links[oldHead].(prev := idx);
      }
      heads[order] := idx;
      PushLinks(ls, links[..], hs, lists, order, idx);
      assert heads[..] == hs[order := idx];
      lists := lists[order := [idx] + lists[order]];
    }

    method FreelistPop(order: nat) returns (head: int)
      requires FreeListsOk() && order <= MAX_ORDER
      modifies links, heads, `lists
      ensures head == Nth(old(lists[order]), 0)
      ensures FreeListsOk()
      ensures head < 0 ==> lists == old(lists)
      ensures head >= 0 ==> lists == old(lists)[order := old(lists[order])[1..]]
    {
      ghost var ls, hs, s := links[..], heads[..], lists[order];
      head := heads[order];
      if head >= 0 {
        assert s[0] == head && ls[s[0]].next == Nth(s, 1);
        var next := links[head].next;
        heads[order] := next;
        assert |s| > 1 ==> s[0] != s[1];
        if next >= 0 {
          links[next] := links[next].(prev := -1);
        }
        links[head] := links[head].(prev := -1, next := -1);
        RemoveLinks(ls, links[..], hs, lists, s[1..], order, 0);
        assert heads[..] == hs[order := next];
        lists := lists[order := s[1..]];
      }
    }

    method FreelistRemove(order: nat, idx: nat, ghost i: nat) returns (ok: bool)
      requires FreeListsOk() && order <= MAX_ORDER && managed == frames.Length == links.Length
      requires idx < managed && frames[idx].state == order ==> i < |lists[order]| && lists[order][i] == idx
      modifies links, heads, `lists
      ensures ok <==> idx < managed && frames[idx].state == order
      ensures FreeListsOk()
      ensures !ok ==> unchanged(`lists, links, heads)
      ensures ok ==> lists == old(lists)[order := Without(old(lists[order]), i)]
    {
      if idx >= managed || frames[idx].state != order { return false; }
      ghost var ls, hs, s := links[..], heads[..], lists[order];
      assert ls[s[i]].next == Nth(s, i + 1) && ls[s[i]].prev == Nth(s, i - 1);
      var prev, next := links[idx].prev, links[idx].next;
      if prev < 0 {
        if heads[order] != idx { return false; }
        heads[order] := next;
      } else {
        links[prev] := links[prev].(next := next);
      }
      if next >= 0 {
        links[next] := links[next].(prev := prev);
      }
      links[idx] := links[idx].(prev := -1, next := -1);
      assert i > 0 ==> s[i - 1] != s[i];
      assert i + 1 < |s| ==> s[i + 1] != s[i];
      assert 0 < i < |s| - 1 ==> s[i - 1] != s[i + 1];
      RemoveLinks(ls, links[..], hs, lists, Without(s, i), order, i);
      assert heads[..] == if i == 0 then hs[order := next] else hs;
      lists := lists[order := Without(s, i)];
      return true;
    }

    // ----- tags -----

    method BlockMarkFree(idx: nat, order: nat)
      requires idx + Pow2(order) <= frames.Length
      modifies frames
      ensures SameStates(old(frames[..]), frames[..], Block(idx, order))
      ensures FreeTagged(frames[..], Block(idx, order))
    {
      frames[idx] := frames[idx].(state := order);
      for i := 1 to Pow2(order)
        invariant SameStates(old(frames[..]), frames[..], Block(idx, order))
        invariant frames[idx].state == order
        invariant forall p :: idx < p < idx + i ==> frames[p].state == FRAME_BUDDY
      {
        frames[idx + i] := frames[idx + i].(state := FRAME_BUDDY);
      }
    }

    method BlockMarkAlloc(idx: nat, order: nat)
      requires idx + Pow2(order) <= frames.Length
      modifies frames
      ensures SameStates(old(frames[..]), frames[..], Block(idx, order))
      ensures UsedTagged(frames[..], Block(idx, order))
    {
      frames[idx] := frames[idx].(state := FRAME_ALLOC_BASE - order);
      for i := 1 to Pow2(order)
        invariant SameStates(old(frames[..]), frames[..], Block(idx, order))
        invariant frames[idx].state == FRAME_ALLOC_BASE - order
        invariant forall p :: idx < p < idx + i ==> frames[p].state == FRAME_USED
      {
        frames[idx + i] := frames[idx + i].(state := FRAME_USED);
      }
    }

    // ----- allocation -----

    /** Round a page count up to a buddy order; `MAX_ORDER + 1` when it is too large. */
    method NeedOrder(pages: nat) returns (order: nat)
      ensures order <= MAX_ORDER ==> IsOrderFor(pages, order)
      ensures order > MAX_ORDER ==> order == MAX_ORDER + 1 && pages > MAX_PAGES
    {
      Pow2Of20();
      order := 0;
      while Pow2(order) < pages
        invariant order <= MAX_ORDER
        invariant forall k :: 0 <= k < order ==> Pow2(k) < pages
        decreases MAX_ORDER - order
      {
        order := order + 1;
        if order > MAX_ORDER { return; }
      }
    }

    method SplitDown(idx: nat, top: nat, need: nat)
      requires Core({Block(idx, top)}) && Block(idx, top) in mem.used && need <= top
      modifies frames, links, heads, `lists, `mem
      ensures mem == Cut(old(mem), Block(idx, top), need)
      ensures Core({Block(idx, need)}) && Block(idx, need) in mem.used
      ensures forall p :: 0 <= p < frames.Length ==> frames[p].kind == old(frames[p].kind)
    {
      var cur := top;
      while cur > need
        invariant need <= cur <= top
        invariant Core({Block(idx, cur)}) && Block(idx, cur) in mem.used
        invariant Cut(mem, Block(idx, cur), need) == Cut(old(mem), Block(idx, top), need)
        invariant forall p :: 0 <= p < frames.Length ==> frames[p].kind == old(frames[p].kind)
      {
        SplitOnce(idx, cur);
        cur := cur - 1;
      }
    }

    /** The left half stays in hand; the right half becomes a free block. */
    method SplitOnce(idx: nat, order: nat)
      requires order > 0 && Core({Block(idx, order)}) && Block(idx, order) in mem.used
      modifies frames, links, heads, `lists, `mem
      ensures mem == Shrink(old(mem), Block(idx, order))
      ensures Core({Block(idx, order - 1)}) && Block(idx, order - 1) in mem.used
      ensures forall p :: 0 <= p < frames.Length ==> frames[p].kind == old(frames[p].kind)
    {
      hide Represents, OnList, FreeTagged;
      ghost var hand, fs, l := Block(idx, order), frames[..], lists;
      UsedBlock(regions, usable, mem, lists, fs, {hand}, hand);
      SplitFrames(idx, order);
      SplitRepresents(regions, usable, mem, l, fs, frames[..], hand);
      mem := Shrink(mem, hand);
    }

    method SplitFrames(idx: nat, order: nat)
      requires 0 < order <= MAX_ORDER && idx + Pow2(order) <= frames.Length == links.Length
      requires FreeListsOk() && !OnList(lists, idx + Pow2(order - 1))
      modifies frames, links, heads, `lists
      ensures FreeListsOk()
      ensures lists == old(lists)[order - 1 := [idx + Pow2(order - 1)] + old(lists[order - 1])]
      ensures SameStates(old(frames[..]), frames[..], Block(idx, order))
      ensures FreeTagged(frames[..], Block(idx + Pow2(order - 1), order - 1))
    {
      var cur := order - 1;
      var buddy := idx + Pow2(cur);
      ghost var fs := frames[..];
      BlockMarkFree(buddy, cur);
      FreelistPush(cur, buddy);
      fs := frames[..];
      BlockMarkFree(idx, cur);
    }

    /** The smallest order from `need` up whose list is not empty, or `MAX_ORDER + 1`. */
    method FirstNonEmpty(need: nat) returns (cur: nat)
      requires need <= MAX_ORDER && FreeListsOk()
      ensures need <= cur <= MAX_ORDER + 1
      ensures forall o :: need <= o < cur ==> lists[o] == []
      ensures cur <= MAX_ORDER ==> lists[cur] != []
    {
      cur := need;
      while cur <= MAX_ORDER && heads[cur] < 0
        invariant need <= cur <= MAX_ORDER + 1
        invariant forall o :: need <= o < cur ==> lists[o] == []
      {
        cur := cur + 1;
      }
    }

    /** Unlink the first block of list `cur`, split it, and tag what is left as allocated. */
    method TakeFirst(cur: nat, need: nat) returns (idx: nat)
      requires Core({}) && need <= cur <= MAX_ORDER && lists[cur] != []
      modifies frames, links, heads, `lists, `mem
      ensures idx == old(lists[cur])[0] && Block(idx, cur) in old(mem.free)
      ensures mem == Cut(Take(old(mem), Block(idx, cur)), Block(idx, cur), need)
      ensures Core({}) && Block(idx, need) in mem.used
      ensures forall p :: 0 <= p < frames.Length ==> frames[p].kind == old(frames[p].kind)
    {
      hide Represents, Cut, Pow2;
      ghost var fs, l := frames[..], lists;
      var head := FreelistPop(cur);
      idx := head;
      TakeRepresents(regions, usable, mem, l, l[cur][1..], fs, Block(idx, cur), 0);
      mem := Take(mem, Block(idx, cur));
      SplitDown(idx, cur, need);
      fs := frames[..];
      UsedBlock(regions, usable, mem, lists, fs, {Block(idx, need)}, Block(idx, need));
      BlockMarkAlloc(idx, need);
      SettleRepresents(regions, usable, mem, lists, fs, frames[..], Block(idx, need));
    }

    /** What a successful allocation of order `need` did. */
    twostate predicate Allocated(from: Block, block: Block, need: nat, pa: nat)
      reads this, frames, links, heads
    {
      && block == Block(from.head, need) && SmallestFrom(old(mem.free), from, need)
      && mem == Cut(Take(old(mem), from), from, need)
      && mem.used == old(mem.used) + {block} && (forall c :: c in old(mem.used) ==> Apart(c, block))
      && allocCount == old(allocCount) + 1
      && Chained(regions) && block.head < Total(regions) && pa == AddressOf(regions, block.head)
    }

    method TakeAndLocate(cur: nat, need: nat) returns (pa: nat, ghost from: Block)
      requires Valid() && need <= cur <= MAX_ORDER && lists[cur] != []
      requires forall o :: need <= o < cur ==> lists[o] == []
      modifies frames, links, heads, `lists, `mem, `allocCount
      ensures Valid() && pa != 0 && Allocated(from, Block(from.head, need), need, pa)
      ensures forall p :: 0 <= p < frames.Length ==> frames[p].kind == old(frames[p].kind)
    {
      hide Represents, SmallestFrom, Cut, Pow2;
      FirstListSmallest(regions, usable, mem, lists, frames[..], need, cur);
      AllocFacts(regions, usable, mem, lists, frames[..], Block(lists[cur][0], cur), need);
      var idx := TakeFirst(cur, need);
      from := Block(idx, cur);
      UsedBlock(regions, usable, mem, lists, frames[..], {}, Block(idx, need));
      var ok;
      ok, pa := IndexToPa(idx);
      if ok {
        allocCount := allocCount + 1;
      }
    }

    method PAlloc(pages: nat) returns (pa: nat, ghost from: Block, ghost block: Block)
      requires Valid()
      modifies frames, links, heads, `lists, `mem, `allocCount
      ensures Valid()
      ensures forall p :: 0 <= p < frames.Length ==> frames[p].kind == old(frames[p].kind)
      // Null: nothing changed, and exactly if no legal run of that many pages is free.
      ensures pa == 0 ==> unchanged(this, frames, links, heads)
      ensures pa == 0 <==> !ready || pages == 0 || pages > MAX_PAGES || Exhausted(regions, old(mem), pages)
      // Otherwise: the first block of the smallest sufficient order, cut down to size.
      ensures pa != 0 ==> ready && 0 < pages && IsOrderFor(pages, block.order)
      ensures pa != 0 ==> Allocated(from, block, block.order, pa)
    {
      hide Represents, Exhausted, SmallestFrom, IsOrderFor, Cut, Pow2;
      pa, from, block := 0, Block(0, 0), Block(0, 0);
      if !ready || pages == 0 { return; }
      var need := NeedOrder(pages);
      if need > MAX_ORDER { return; }
      var cur := FirstNonEmpty(need);
      if cur > MAX_ORDER {
        NoFreeRun(regions, usable, mem, lists, frames[..], pages, need);
        return;
      }
      ghost var m := mem;
      RepresentsOk(regions, usable, mem, lists, frames[..], {});
      pa, from := TakeAndLocate(cur, need);
      block := Block(from.head, need);
      NotExhausted(regions, usable, m, from, need, pages);
      AtMostMax(pages, need);
    }

    // ----- release -----

    method BuddyIndex(idx: nat, order: nat) returns (ok: bool, buddy: nat)
      requires Geometry()
      ensures ok ==> idx < managed && buddy == Sibling(regions, Block(idx, order)).head < Hi(regions, idx)
      ensures !ok && idx < managed ==> Hi(regions, idx) <= Sibling(regions, Block(idx, order)).head
    {
      var found, rid := FindRegionByIndex(idx);
      if !found { return false, 0; }
      var local := idx - regions[rid].first;
      var buddyLocal := Xor(local, Pow2(order));
      if buddyLocal >= regions[rid].pages { return false, 0; }
      return true, regions[rid].first + buddyLocal;
    }

    /** Merge the block in hand with its sibling if that is free at the same order. */
    method MergeOnce(idx: nat, order: nat) returns (merged: bool, head: nat)
      requires Core({Block(idx, order)}) && Block(idx, order) in mem.used && Fits(regions, Block(idx, order))
      requires order < MAX_ORDER
      modifies frames, links, heads, `lists, `mem
      ensures merged <==> Mergeable(regions, old(mem.free), Block(idx, order))
      ensures merged ==> mem == Grow(regions, old(mem), Block(idx, order))
                         && Block(head, order + 1) == Parent(regions, Block(idx, order))
      ensures merged ==> Block(head, order + 1) in mem.used && Core({Block(head, order + 1)})
      ensures !merged ==> unchanged(this, frames, links, heads)
      ensures forall p :: 0 <= p < frames.Length ==> frames[p].kind == old(frames[p].kind)
    {
      hide Represents, Fits, Xor, Pow2;
      ghost var h, fs, l := Block(idx, order), frames[..], lists;
      merged, head := false, idx;
      var ok, buddy := BuddyIndex(idx, order);
      if !ok { return; }
      SiblingTag(regions, usable, mem, lists, fs, h);
      if frames[buddy].state != order { return; }
      ghost var i := PositionOf(regions, usable, mem, lists, fs, h);
      var removed := FreelistRemove(order, buddy, i);
      if !removed { return; }
      GrowRepresents(regions, usable, mem, l, Without(l[order], i), fs, h, i);
      mem := Grow(regions, mem, h);
      return true, if buddy < idx then buddy else idx;
    }

    /** Tag the block in hand as free and push it on its list. */
    method ReleaseHand(idx: nat, order: nat)
      requires Core({Block(idx, order)}) && Block(idx, order) in mem.used && Fits(regions, Block(idx, order))
      requires !Mergeable(regions, mem.free, Block(idx, order))
      modifies frames, links, heads, `lists, `mem
      ensures mem == Release(old(mem), Block(idx, order)) && Core({})
      ensures forall p :: 0 <= p < frames.Length ==> frames[p].kind == old(frames[p].kind)
    {
      hide Represents, Fits, Mergeable, OnList, FreeTagged;
      ghost var h, fs, l := Block(idx, order), frames[..], lists;
      UsedBlock(regions, usable, mem, lists, fs, {h}, h);
      BlockMarkFree(idx, order);
      ghost var gs := frames[..];
      ReleaseRepresents(regions, usable, mem, l, fs, gs, h);
      FreelistPush(order, idx);
      mem := Release(mem, h);
    }

    /** Merge upward while the sibling is free at the same order, then release the result. */
    method MergeAndRelease(idx: nat, order: nat)
      requires Core({Block(idx, order)}) && Block(idx, order) in mem.used
      modifies frames, links, heads, `lists, `mem
      ensures mem == Merge(regions, usable, old(mem), Block(idx, order))
      ensures Core({})
      ensures forall p :: 0 <= p < frames.Length ==> frames[p].kind == old(frames[p].kind)
    {
      hide Represents, Fits, MemOk, Mergeable, Merge, Grow, Parent, FreeListsOk;
      ghost var b := Block(idx, order);
      var head, o := idx, order;
      UsedBlock(regions, usable, mem, lists, frames[..], {b}, b);
      RepresentsOk(regions, usable, mem, lists, frames[..], {b});
      while o < MAX_ORDER
        invariant o <= MAX_ORDER
        invariant Core({Block(head, o)}) && Block(head, o) in mem.used
        invariant MemOk(regions, usable, mem) && Fits(regions, Block(head, o))
        invariant Merge(regions, usable, mem, Block(head, o)) == Merge(regions, usable, old(mem), b)
        invariant forall p :: 0 <= p < frames.Length ==> frames[p].kind == old(frames[p].kind)
      {
        MergeStep(regions, usable, mem, Block(head, o));
        var merged, h := MergeOnce(head, o);
        if !merged { break; }
        head, o := h, o + 1;
        UsedBlock(regions, usable, mem, lists, frames[..], {Block(head, o)}, Block(head, o));
      }
      MergeStep(regions, usable, mem, Block(head, o));
      LargestNotMergeable(regions, mem.free, Block(head, o));
      ReleaseHand(head, o);
    }

    /** Some allocated block starts at physical address `pa`. */
    ghost predicate Live(m: Mem, pa: nat)
      requires Geometry()
    {
      exists b :: b in m.used && b.head < managed && AddressOf(regions, b.head) == pa
    }

    method PFree(pa: nat) returns (ghost freed: bool, ghost block: Block)
      requires Valid()
      modifies frames, links, heads, `lists, `mem, `freeCount
      ensures Valid()
      ensures forall p :: 0 <= p < frames.Length ==> frames[p].kind == old(frames[p].kind)
      ensures freed <==> ready && old(Live(mem, pa))
      ensures !freed ==> unchanged(this, frames, links, heads)
      ensures freed ==> block in old(mem.used) && block.head < managed && AddressOf(regions, block.head) == pa
      ensures freed ==> mem == Merge(regions, usable, old(mem), block) && mem.used == old(mem.used) - {block}
      ensures freed ==> freeCount == old(freeCount) + 1
    {
      hide Represents, MemOk, Merge, AddressOf, FreeListsOk;
      freed, block := false, Block(0, 0);
      RepresentsOk(regions, usable, mem, lists, frames[..], {});
      if !ready { return; }
      if pa == 0 {
        NoNullBlock();
        return;
      }
      if pa % PAGE_SIZE != 0 {
        Misaligned(regions, pa);
        return;
      }
      var ok, idx := PaToIndex(pa);
      if !ok { return; }
      UsedTag(regions, usable, mem, lists, frames[..], idx);
      var tag := frames[idx].state;
      if tag > FRAME_ALLOC_BASE {
        NoBlockAt(idx);
        return;
      }
      var order := FRAME_ALLOC_BASE - tag;
      freed, block := true, Block(idx, order);
      HandIn(regions, usable, mem, lists, frames[..], block);
      MergeOk(regions, usable, mem, block);
      MergeAndRelease(idx, order);
      freeCount := freeCount + 1;
    }

    lemma NoNullBlock()
      requires Valid()
      ensures !Live(mem, 0)
    {
      forall b | b in mem.used && b.head < managed ensures AddressOf(regions, b.head) != 0 {
        HandUsable(regions, usable, mem, b, b.head);
      }
    }

    lemma NoBlockAt(p: nat)
      requires Geometry() && p < managed && forall b :: b in mem.used ==> b.head != p
      ensures !Live(mem, AddressOf(regions, p))
    {
      forall b | b in mem.used && b.head < managed ensures AddressOf(regions, b.head) != AddressOf(regions, p) {
        if AddressOf(regions, b.head) == AddressOf(regions, p) { AddressInjective(regions, b.head, p); }
      }
    }

    // ----- owner tags -----

    method PageQuery(base: nat) returns (ok: bool, index: nat, kind: Kind, allocatedHead: bool)
      requires Valid()
      ensures ok ==> ready && index < managed && AddressOf(regions, index) == base && kind == frames[index].kind
      ensures ok ==> (allocatedHead <==> Live(mem, base))
      ensures !ok ==> !ready || forall p :: 0 <= p < managed ==> AddressOf(regions, p) != base
    {
      hide Represents, AddressOf, FreeListsOk;
      index, kind, allocatedHead := 0, NoKind, false;
      if !ready { return false, 0, NoKind, false; }
      ok, index := PaToIndex(base);
      if !ok { return; }
      kind, allocatedHead := frames[index].kind, frames[index].state <= FRAME_ALLOC_BASE;
      UsedTag(regions, usable, mem, lists, frames[..], index);
      if !allocatedHead { NoBlockAt(index); }
    }

    method PageSetKind(base: nat, kind: Kind)
      requires Valid()
      modifies frames
      ensures Valid()
      ensures forall p :: 0 <= p < managed ==>
        frames[p] == if ready && AddressOf(regions, p) == base && old(Live(mem, base))
                     then old(frames[p]).(kind := kind) else old(frames[p])
    {
      hide Represents, AddressOf, FreeListsOk;
      if !ready { return; }
      var ok, idx := PaToIndex(base);
      if !ok { return; }
      UsedTag(regions, usable, mem, lists, frames[..], idx);
      if frames[idx].state > FRAME_ALLOC_BASE {
        NoBlockAt(idx);
        return;
      }
      ghost var fs := frames[..];
      frames[idx] := frames[idx].(kind := kind);
      KindKeeps(regions, usable, mem, lists, fs, frames[..]);
      forall p | 0 <= p < managed && p != idx ensures AddressOf(regions, p) != base {
        if AddressOf(regions, p) == base { AddressInjective(regions, p, idx); }
      }
    }

    // ----- initial state -----
    // `pages` below is the set of pages no reservation touches.

    /** Metadata for the given regions: nothing free, every page tagged used, all lists empty. */
    constructor (rs: seq<Region>)
      requires Chained(rs) && AddressesOk(rs) && rs != []
      ensures Valid() && !ready && regions == rs && usable == {} && mem == Mem({}, {})
      ensures fresh(frames) && fresh(links) && fresh(heads) && allocCount == 0 && freeCount == 0
      ensures forall p :: 0 <= p < managed ==> frames[p].kind == NoKind
    {
      regions := rs;
      managed := Total(rs);
      directMap := |rs| == 1;
      directBase, directFirst, directLast := rs[0].base, rs[0].first, rs[0].first + rs[0].pages;
      frames := new Frame[Total(rs)](_ => Frame(FRAME_USED, NoKind));
      links := new Link[Total(rs)](_ => Link(-1, -1));
      heads := new int[MAX_ORDER + 1](_ => -1);
      ready, allocCount, freeCount := false, 0, 0;
      usable, mem := {}, Mem({}, {});
      lists := seq(MAX_ORDER + 1, _ => []);
    }

    method FloorLog2(v: nat) returns (n: nat)
      requires v > 0
      ensures Pow2(n) <= v < Pow2(n + 1)
    {
      n := 0;
      while Pow2(n + 1) <= v
        invariant Pow2(n) <= v
        decreases v - Pow2(n)
      {
        n := n + 1;
      }
    }

    /** The largest order that fits in `n` pages, then lowered until `s` is aligned for it. */
    method ChooseOrder(s: nat, n: nat) returns (order: nat)
      requires n > 0
      ensures LargestOrder(s, n, order)
    {
      hide And, Aligned, Pow2;
      order := FloorLog2(n);
      if order > MAX_ORDER {
        Pow2Monotone(MAX_ORDER, order);
        order := MAX_ORDER;
      } else {
        forall k | order < k <= MAX_ORDER ensures Pow2(k) > n { Pow2Monotone(order + 1, k); }
      }
      order := LowerToAligned(s, n, order);
    }

    method LowerToAligned(s: nat, n: nat, top: nat) returns (order: nat)
      requires top <= MAX_ORDER && Pow2(top) <= n && forall k :: top < k <= MAX_ORDER ==> Pow2(k) > n
      ensures LargestOrder(s, n, order)
    {
      hide And, Aligned, Pow2;
      AlwaysAligned(s);
      order := top;
      MaskTestsAlignment(s, order);
      while order > 0 && And(s, Pow2(order) - 1) != 0
        invariant order <= top && Pow2(order) <= n
        invariant And(s, Pow2(order) - 1) == 0 <==> Aligned(s, order)
        invariant forall k :: order < k <= top ==> !Aligned(s, k)
        decreases order
      {
        order := order - 1;
        Pow2Monotone(order, order + 1);
        MaskTestsAlignment(s, order);
      }
    }

    /** One round of carving. */
    method CarveOne(rid: nat, s: nat, n: nat, ghost pages: set<nat>) returns (order: nat)
      requires Core({}) && rid < |regions| && n > 0 && mem.used == {} && AllMaximal(regions, pages, mem.free)
      requires RunFrom(regions, pages, rid, regions[rid].first + s, regions[rid].first + s + n)
      requires CleanCut(regions, pages, regions[rid].first + s)
      requires forall p: nat :: p in usable ==> p < regions[rid].first + s
      modifies frames, links, heads, `lists, `mem, `usable
      ensures Core({}) && mem.used == {} && AllMaximal(regions, pages, mem.free)
      ensures Pow2(order) <= n && CleanCut(regions, pages, regions[rid].first + s + Pow2(order))
      ensures forall p: nat :: p in usable <==>
        p in old(usable) || regions[rid].first + s <= p < regions[rid].first + s + Pow2(order)
      ensures forall p :: 0 <= p < frames.Length ==> frames[p].kind == old(frames[p].kind)
    {
      hide Represents, MaximalIn, CleanCut, LargestOrder;
      order := ChooseOrder(s, n);
      var idx := regions[rid].first + s;
      ghost var b, fs, l := Block(idx, order), frames[..], lists;
      NextMaximal(regions, pages, rid, idx, idx + n, order);
      NextClean(regions, pages, b);
      LargestFacts(regions, pages, s, n, order, rid);
      FreshNotListed(regions, usable, mem, lists, fs, idx);
      BlockMarkFree(idx, order);
      ghost var gs := frames[..];
      CarveRepresents(regions, pages, usable, mem, lists, fs, gs, b);
      FreelistPush(order, idx);
      usable, mem := usable + PagesOf(b), Mem(mem.free + {b}, mem.used);
    }

    /** Carve the run of `len` pages that starts at local page `start` of region `rid`. */
    method AddFreeRun(rid: nat, start: nat, len: nat, ghost pages: set<nat>)
      requires Core({}) && rid < |regions| && len > 0 && mem.used == {} && AllMaximal(regions, pages, mem.free)
      requires RunFrom(regions, pages, rid, regions[rid].first + start, regions[rid].first + start + len)
      requires start == 0 || regions[rid].first + start - 1 !in pages
      requires forall p: nat :: p in usable ==> p < regions[rid].first + start
      modifies frames, links, heads, `lists, `mem, `usable
      ensures Core({}) && mem.used == {} && AllMaximal(regions, pages, mem.free)
      ensures forall p: nat :: p in usable <==>
        p in old(usable) || regions[rid].first + start <= p < regions[rid].first + start + len
      ensures forall p :: 0 <= p < frames.Length ==> frames[p].kind == old(frames[p].kind)
    {
      hide Represents, AllMaximal, CleanCut, Chained, AddressesOk, FreeListsOk;
      CutAtRunStart(regions, pages, rid, regions[rid].first + start);
      var s, n := start, len;
      while n > 0
        invariant start <= s && 0 <= n && s + n == start + len
        invariant Core({}) && mem.used == {} && AllMaximal(regions, pages, mem.free)
        invariant n > 0 ==> CleanCut(regions, pages, regions[rid].first + s)
        invariant forall p: nat :: p in usable <==> p in old(usable) || regions[rid].first + start <= p < regions[rid].first + s
        invariant forall p :: 0 <= p < frames.Length ==> frames[p].kind == old(frames[p].kind)
      {
        var order := CarveOne(rid, s, n, pages);
        s, n := s + Pow2(order), n - Pow2(order);
      }
    }

    /** Carve the unreserved runs of one region. */
    method BuildRegion(rid: nat, reserves: seq<Range>, ghost pages: set<nat>)
      requires Core({}) && rid < |regions| && mem.used == {} && AllMaximal(regions, pages, mem.free)
      requires pages == Unreserved(regions, reserves)
      requires forall p: nat :: p in usable <==> p in pages && p < regions[rid].first
      modifies frames, links, heads, `lists, `mem, `usable
      ensures Core({}) && mem.used == {} && AllMaximal(regions, pages, mem.free)
      ensures forall p: nat :: p in usable <==> p in pages && p < regions[rid].first + regions[rid].pages
      ensures forall p :: 0 <= p < frames.Length ==> frames[p].kind == old(frames[p].kind)
    {
      hide Represents, AllMaximal, AddressesOk, FreeListsOk, Unreserved;
      var first := regions[rid].first;
      var runStart, runLen := 0, 0;
      var p := 0;
      while p < regions[rid].pages
        invariant 0 <= p <= regions[rid].pages && 0 <= runLen <= p && (runLen > 0 ==> runStart == p - runLen)
        invariant Core({}) && mem.used == {} && AllMaximal(regions, pages, mem.free)
        invariant forall q: nat :: q in usable <==> q in pages && q < first + p - runLen
        invariant forall q: nat :: first + p - runLen <= q < first + p ==> q in pages
        invariant p > runLen ==> first + p - runLen - 1 !in pages
        invariant forall q :: 0 <= q < frames.Length ==> frames[q].kind == old(frames[q].kind)
      {
        var reserved := IsReserved(reserves, regions[rid].base + p * PAGE_SIZE);
        PageReserved(regions, reserves, pages, rid, p);
        if reserved {
          if runLen > 0 {
            AddFreeRun(rid, runStart, runLen, pages);
            runLen := 0;
          }
          MarkReserved(first + p);
        } else {
          if runLen == 0 { runStart := p; }
          runLen := runLen + 1;
        }
        p := p + 1;
      }
      if runLen > 0 {
        AddFreeRun(rid, runStart, runLen, pages);
      }
    }

    method MarkReserved(idx: nat)
      requires Core({}) && idx < managed && idx !in usable
      modifies frames
      ensures Core({})
      ensures forall q :: 0 <= q < frames.Length ==> frames[q].kind == old(frames[q].kind)
    {
      ghost var fs := frames[..];
      UnusableTag(regions, usable, mem, lists, fs, idx);
      frames[idx] := frames[idx].(state := FRAME_USED);
      assert frames[..] == fs;
    }

    /** Free lists from RAM minus reservations; page 0 is always reserved. */
    method BuildInitialState(reserves: seq<Range>)
      requires Valid() && usable == {} && mem == Mem({}, {}) && Reserved(reserves, 0)
      modifies frames, links, heads, `lists, `mem, `usable
      ensures Valid() && mem.used == {} && usable == Unreserved(regions, reserves)
      ensures AllMaximal(regions, usable, mem.free)
      ensures forall p :: 0 <= p < frames.Length ==> frames[p].kind == old(frames[p].kind)
    {
      hide Represents, AddressesOk, FreeListsOk, Unreserved, MaximalIn, Reserved;
      ghost var pages := Unreserved(regions, reserves);
      var rid := 0;
      assert regions[..0] == [];
      while rid < |regions|
        invariant 0 <= rid <= |regions|
        invariant Core({}) && mem.used == {} && AllMaximal(regions, pages, mem.free)
        invariant forall p: nat :: p in usable <==> p in pages && p < Total(regions[..rid])
        invariant forall p :: 0 <= p < frames.Length ==> frames[p].kind == old(frames[p].kind)
      {
        assert regions[rid].first == Total(regions[..rid]);
        BuildRegion(rid, reserves, pages);
        assert regions[..rid + 1][rid] == regions[rid];
        rid := rid + 1;
      }
      assert regions[..rid] == regions;
      UnreservedPages(regions, reserves);
      assert usable == pages;
    }

    // ----- accounting -----

    method FreelistCount(order: nat) returns (n: nat)
      requires FreeListsOk() && order <= MAX_ORDER
      ensures n == |lists[order]|
    {
      n := 0;
      var cur := heads[order];
      while cur >= 0
        invariant n <= |lists[order]| && cur == Nth(lists[order], n)
        decreases |lists[order]| - n
      {
        assert links[..][lists[order][n]].next == Nth(lists[order], n + 1);
        n := n + 1;
        cur := links[cur].next;
      }
    }

    /** Walking the lists counts exactly the pages of free blocks. */
    method TotalFreePages() returns (total: nat)
      requires Valid()
      ensures total == |HeldPages(managed, mem.free)|
    {
      assert Distinct(lists);
      hide FreeListsOk, Represents, Distinct, HeldPages, Pow2;
      total := 0;
      for order := 0 to MAX_ORDER + 1
        invariant total == ListedPages(lists, order)
      {
        var n := FreelistCount(order);
        total := total + n * Pow2(order);
      }
      ListedPagesCount(regions, usable, mem, lists, frames[..]);
    }
  }

  lemma AllocFacts(rs: seq<Region>, usable: set<nat>, m: Mem, lists: seq<seq<nat>>, fs: seq<Frame>, b: Block, k: nat)
    requires Chained(rs) && Represents(rs, usable, m, lists, fs, {}) && SmallestFrom(m.free, b, k)
    ensures Cut(Take(m, b), b, k).used == m.used + {Block(b.head, k)}
    ensures forall c :: c in m.used ==> Apart(c, Block(b.head, k))
  {
    AllocOk(rs, usable, m, b, k);
    AllocatedApart(rs, usable, m, b, k);
  }

  lemma LargestNotMergeable(rs: seq<Region>, free: set<Block>, b: Block)
    requires Chained(rs) && Fits(rs, b)
    ensures b.order == MAX_ORDER ==> !Mergeable(rs, free, b)
  {
  }

  lemma Misaligned(rs: seq<Region>, pa: nat)
    requires Chained(rs) && AddressesOk(rs) && pa % PAGE_SIZE != 0
    ensures forall p :: 0 <= p < Total(rs) ==> AddressOf(rs, p) != pa
  {
    forall p | 0 <= p < Total(rs) ensures AddressOf(rs, p) != pa { AddressRegion(rs, p, 0); }
  }

  lemma LargestFacts(rs: seq<Region>, pages: set<nat>, s: nat, n: nat, o: nat, r: nat)
    requires Chained(rs) && LargestOrder(s, n, o) && r < |rs| && RunFrom(rs, pages, r, rs[r].first + s, rs[r].first + s + n)
    ensures o <= MAX_ORDER && Pow2(o) <= n && rs[r].first + s + Pow2(o) <= Total(rs)
  {
    RegionAtUnique(rs, rs[r].first + s, r);
    assert Hi(rs, rs[r].first + s) <= Total(rs);
  }

  lemma RegionAtUniqueIf(rs: seq<Region>, p: nat, r: nat)
    requires Chained(rs) && r < |rs|
    ensures rs[r].first <= p < rs[r].first + rs[r].pages ==> p < Total(rs) && RegionAt(rs, p) == r
    ensures |rs| == 1 ==> (p < Total(rs) <==> rs[0].first <= p < rs[0].first + rs[0].pages)
  {
    assert rs[..0] == [];
    if rs[r].first <= p < rs[r].first + rs[r].pages { RegionAtUnique(rs, p, r); }
  }
}
