/** `kmalloc` and `kfree` of kernel/src/slab.c on top of the page allocator. */
module ByteAllocator {
  import opened Bits
  import opened Blocks
  import opened Links
  import opened Frames
  import opened PageAllocator
  import opened SlabLists

  const MAX_SLAB_SIZE: nat := 2048
  const WORD: nat := 8

  ghost predicate HeadUsed(used: set<Block>, p: nat) {
    exists b :: b in used && b.head == p
  }

  /** A page's owner is set only on an allocated head of that kind; slabs are single pages. */
  ghost predicate KindsOk(m: Mem, fs: seq<Frame>, slabs: set<nat>) {
    && (forall p :: 0 <= p < |fs| ==> (fs[p].kind == SlabKind <==> p in slabs))
    && (forall p :: p in slabs ==> p < |fs| && Block(p, 0) in m.used)
    && (forall p :: 0 <= p < |fs| && fs[p].kind == LargeKind ==> HeadUsed(m.used, p))
  }

  /** Address `x` is the head of a large allocation. */
  ghost predicate LargeIn(rs: seq<Region>, fs: seq<Frame>, x: nat)
    requires Chained(rs) && |fs| == Total(rs)
  {
    exists p :: 0 <= p < |fs| && fs[p].kind == LargeKind && AddressOf(rs, p) == x
  }

  /** The pages of slabs, as blocks. */
  ghost function SlabBlocks(slabs: set<nat>): set<Block> {
    set p | p in slabs :: Block(p, 0)
  }

  /** Allocated blocks that are not the heap's: their heads carry no tag. */
  ghost function Untagged(m: Mem, fs: seq<Frame>): set<Block> {
    set b | b in m.used && b.head < |fs| && fs[b.head].kind == NoKind
  }

  lemma NoCaches(rs: seq<Region>, hdr: seq<Header>, links: seq<Link>, heads: seq<int>, fls: seq<seq<nat>>, lists: seq<seq<nat>>)
    requires Chained(rs) && |hdr| == |links| == |fls| == Total(rs) && |heads| == |lists| == LISTS
    requires forall k :: 0 <= k < LISTS ==> heads[k] == -1 && lists[k] == []
    ensures SlabsOk(rs, {}, hdr, map[], fls, lists, {}) && LinksOk(links, heads, lists)
  {
  }

  /** The smallest class that holds `size` bytes. */
  ghost function ClassOf(size: nat): (c: nat)
    requires 0 < size <= MAX_SLAB_SIZE
    ensures c < CLASSES && size <= ClassSize(c) && (c > 0 ==> ClassSize(c - 1) < size)
  {
    LeastClass(size, 0)
  }

  ghost function LeastClass(size: nat, i: nat): (c: nat)
    requires i < CLASSES && size <= MAX_SLAB_SIZE && (i > 0 ==> ClassSize(i - 1) < size)
    ensures c < CLASSES && size <= ClassSize(c) && (c > 0 ==> ClassSize(c - 1) < size)
    decreases CLASSES - i
  {
    if size <= ClassSize(i) then i else LeastClass(size, i + 1)
  }

  lemma OneClass(size: nat, c: nat)
    requires 0 < size <= MAX_SLAB_SIZE && c < CLASSES && size <= ClassSize(c) && (c > 0 ==> ClassSize(c - 1) < size)
    ensures c == ClassOf(size)
  {
    hide LeastClass;
    var d := ClassOf(size);
    if c < d { Sizes(c, d - 1); } else if d < c { Sizes(d, c - 1); }
  }

  lemma Sizes(c: nat, d: nat)
    requires c <= d < CLASSES
    ensures ClassSize(c) <= ClassSize(d)
  {
  }

  /** Every slot of every slab of class `c` is live. */
  ghost predicate AllTaken(rs: seq<Region>, slabs: set<nat>, hdr: seq<Header>, fls: seq<seq<nat>>, c: nat)
    requires Chained(rs) && |hdr| == |fls| == Total(rs) && c < CLASSES
  {
    forall p, y: nat :: p in slabs && p < |hdr| && hdr[p].cls == c && IsObject(AddressOf(rs, p), c, y) ==> LiveObject(rs, slabs, hdr, fls, y)
  }

  lemma NotFull(h: Header, f: seq<nat>)
    requires StateOk(h) && h.state != Full && h.inuse + |f| == h.capacity && h.capacity > 0
    ensures f != []
  {
  }

  /** An object on the free chain of a slab is not live. */
  lemma FreeSlotLeft(rs: seq<Region>, slabs: set<nat>, hdr: seq<Header>, chunk: map<nat, nat>, fls: seq<seq<nat>>,
                     lists: seq<seq<nat>>, p: nat)
    requires Chained(rs) && AddressesOk(rs) && SlabsOk(rs, slabs, hdr, chunk, fls, lists, {}) && p in slabs && p < |hdr| == |fls| && fls[p] != []
    ensures hdr[p].cls < CLASSES && !AllTaken(rs, slabs, hdr, fls, hdr[p].cls)
  {
    SlabFacts(rs, slabs, hdr, chunk, fls, lists, {}, p);
    hide SlabsOk, AddressOf, ObjectChain, Capacity;
    var y := fls[p][0];
    assert IsObject(AddressOf(rs, p), hdr[p].cls, y);
    hide IsObject;
    forall q | q in slabs ensures !LiveIn(rs, hdr, fls, q, y) {
      if LiveIn(rs, hdr, fls, q, y) {
        OnePage(rs, p, hdr[p].cls, q, hdr[q].cls, y);
      }
    }
    assert !LiveObject(rs, slabs, hdr, fls, y);
  }

  lemma DryTaken(rs: seq<Region>, slabs: set<nat>, hdr: seq<Header>, chunk: map<nat, nat>, fls: seq<seq<nat>>,
                 lists: seq<seq<nat>>, c: nat)
    requires Chained(rs) && SlabsOk(rs, slabs, hdr, chunk, fls, lists, {}) && c < CLASSES && |lists| == LISTS
    requires lists[ListId(c, Partial)] == [] && lists[ListId(c, Empty)] == [] && |hdr| == |fls| == Total(rs)
    ensures AllTaken(rs, slabs, hdr, fls, c)
  {
    forall p, y: nat | p in slabs && p < |hdr| && hdr[p].cls == c && IsObject(AddressOf(rs, p), c, y) ensures LiveIn(rs, hdr, fls, p, y) {
      SlabFacts(rs, slabs, hdr, chunk, fls, lists, {}, p);
      var i := ListPosition(rs, slabs, hdr, chunk, fls, lists, p);
      hide SlabsOk, AddressOf, IsObject, ObjectChain, Capacity;
      assert hdr[p].state == Full && |fls[p]| == 0;
    }
  }

  /** Only the large tags matter. */
  lemma LargeUnchanged(rs: seq<Region>, fs: seq<Frame>, gs: seq<Frame>)
    requires Chained(rs) && |fs| == |gs| == Total(rs)
    requires forall p :: 0 <= p < |fs| ==> (fs[p].kind == LargeKind <==> gs[p].kind == LargeKind)
    ensures forall x :: LargeIn(rs, fs, x) <==> LargeIn(rs, gs, x)
  {
  }

  class Heap {
    const pages: Allocator
    // Memory at the start of each page: header and list links, meaningful for slab pages only.
    const headers: array<Header>
    const links: array<Link>
    // First slab per class and state (kmem_caches), -1 for none.
    const heads: array<int>
    // Words of pages; a free object stores its successor in its first one.
    var chunk: map<nat, nat>
    var ready: bool
    var objectAllocs: nat
    var objectFrees: nat
    var reclaims: nat

    ghost var slabs: set<nat>
    ghost var fls: seq<seq<nat>>
    ghost var lists: seq<seq<nat>>

    /** The slab side; `hand` holds slabs that are between two lists. */
    ghost predicate SlabSide(hand: set<nat>)
      reads `chunk, `slabs, `fls, `lists, headers, links, heads
    {
      && Chained(pages.regions) && AddressesOk(pages.regions)
      && headers.Length == links.Length == Total(pages.regions) && heads.Length == LISTS
      && SlabsOk(pages.regions, slabs, headers[..], chunk, fls, lists, hand)
      && LinksOk(links[..], heads[..], lists)
    }

    /** The page side: the page allocator's invariant and the owner tags. */
    ghost predicate PageSide()
      reads `slabs, pages, pages.frames, pages.links, pages.heads
    {
      && pages.Valid() && KindsOk(pages.mem, pages.frames[..], slabs)
    }

    ghost predicate Separate() {
      links != pages.links && heads != pages.heads
    }

    ghost predicate Valid()
      reads this, headers, links, heads, pages, pages.frames, pages.links, pages.heads
    {
      Separate() && SlabSide({}) && PageSide() && pages.ready
    }

    /** Empty caches over a page allocator that has handed out nothing tagged yet. */
    constructor (a: Allocator)
      requires a.Valid() && a.ready && forall p :: 0 <= p < a.managed ==> a.frames[p].kind == NoKind
      ensures Valid() && ready && pages == a && slabs == {}
      ensures fresh(headers) && fresh(links) && fresh(heads)
    {
      hide Represents, AddressOf, SlabsOk, LinksOk, LISTS;
      pages := a;
      headers := new Header[a.managed](_ => Header(0, 0, 0, 0, Empty, 0));
      links := new Link[a.managed](_ => Link(-1, -1));
      heads := new int[LISTS](_ => -1);
      chunk, slabs := map[], {};
      fls, lists := seq(a.managed, _ => []), seq(LISTS, _ => []);
      ready, objectAllocs, objectFrees, reclaims := true, 0, 0, 0;
      new;
      NoCaches(pages.regions, headers[..], links[..], heads[..], fls, lists);
    }

    // ----- cache lists -----

    /** Put slab `p`, which is on no list, in front of its class's list for `st`. */
    method CacheAdd(p: nat, st: SlabState, ghost hand: set<nat>)
      requires SlabSide(hand) && p in slabs && p in hand && !OnList(lists, p)
      requires p < headers.Length && headers[p].cls < CLASSES
      requires st == Empty ==> lists[ListId(headers[p].cls, st)] == []
      modifies headers, links, heads, `lists
      ensures SlabSide(hand) && (StateOk(headers[p]) ==> SlabSide(hand - {p}))
      ensures headers[p] == old(headers[p]).(state := st)
      ensures forall q :: 0 <= q < headers.Length && q != p ==> headers[q] == old(headers[q])
      ensures var k := ListId(headers[p].cls, st); lists == old(lists)[k := [p] + old(lists[k])]
    {
      hide SlabOk, Placed, StateOk;
      var k := ListId(headers[p].cls, st);
      ghost var hdr, ls, hs, l := headers[..], links[..], heads[..], lists;
      ListLengths(pages.regions, slabs, hdr, chunk, fls, lists, hand);
      headers[p] := headers[p].(state := st);
      var first := heads[k];
      assert first >= 0 ==> lists[k][0] == first && first in lists[k];
      links[p] := Link(-1, first);
      if first >= 0 {
        links[first] := links[first].(prev := p);
      }
      heads[k] := p;
      lists := lists[k := [p] + lists[k]];
      PushLinks(ls, links[..], hs, l, k, p);
      assert heads[..] == hs[k := p];
      AddPlaced(slabs, hdr, headers[..], l, lists, hand, p);
      StateKeeps(pages.regions, slabs, hdr, headers[..], chunk, fls, p);
    }

    /** Unlink slab `p` from the list that its state names. */
    method CacheRemove(p: nat, ghost hand: set<nat>, ghost i: nat)
      requires SlabSide(hand) && p in slabs && p < headers.Length && headers[p].cls < CLASSES
      requires |lists| == LISTS
      requires var k := ListId(headers[p].cls, headers[p].state); i < |lists[k]| && lists[k][i] == p
      modifies links, heads, `lists
      ensures SlabSide(hand + {p}) && !OnList(lists, p)
      ensures var k := ListId(headers[p].cls, headers[p].state); lists == old(lists)[k := Without(old(lists[k]), i)]
    {
      hide SlabOk, Placed;
      var k := ListId(headers[p].cls, headers[p].state);
      ghost var ls, hs, l, s := links[..], heads[..], lists, lists[k];
      assert ls[s[i]].next == Nth(s, i + 1) && ls[s[i]].prev == Nth(s, i - 1);
      var prev, next := links[p].prev, links[p].next;
      if prev >= 0 {
        links[prev] := links[prev].(next := next);
      } else {
        heads[k] := next;
      }
      if next >= 0 {
        links[next] := links[next].(prev := prev);
      }
      links[p] := Link(-1, -1);
      assert i > 0 ==> s[i - 1] != s[i];
      assert i + 1 < |s| ==> s[i + 1] != s[i];
      assert 0 < i < |s| - 1 ==> s[i - 1] != s[i + 1];
      RemoveLinks(ls, links[..], hs, l, Without(s, i), k, i);
      assert heads[..] == if i == 0 then hs[k := next] else hs;
      RemovePlaced(slabs, headers[..], l, hand, k, Without(s, i), i);
      lists := lists[k := Without(s, i)];
    }

    // ----- objects -----

    ghost predicate LiveSmall(x: nat)
      requires Chained(pages.regions) && headers.Length == |fls| == Total(pages.regions)
      reads `slabs, `fls, headers
    {
      LiveObject(pages.regions, slabs, headers[..], fls, x)
    }

    /** Pop the first free object of slab `p` and count it as in use. */
    method TakeObject(p: nat, ghost hand: set<nat>) returns (x: nat)
      requires SlabSide(hand) && p in slabs && p < |fls| && fls[p] != []
      modifies headers, `fls
      ensures SlabSide(hand + {p}) && x == old(fls[p])[0] && x != 0
      ensures p < headers.Length == |fls| && headers[p].inuse == old(headers[p].inuse) + 1
      ensures headers[p] == old(headers[p]).(inuse := headers[p].inuse, freelist := headers[p].freelist)
      ensures forall q :: 0 <= q < headers.Length && q != p ==> headers[q] == old(headers[q])
      ensures !old(LiveSmall(x)) && forall y :: LiveSmall(y) <==> old(LiveSmall(y)) || y == x
      ensures IsObject(AddressOf(pages.regions, p), headers[p].cls, x)
    {
      SlabFacts(pages.regions, slabs, headers[..], chunk, fls, lists, hand, p);
      FirstNotInRest(pages.regions, headers[..], chunk, fls, p);
      TakeObjects(AddressOf(pages.regions, p), headers[p], fls[p], chunk);
      hide Placed, ObjectsOk, IsObject, AddressOf;
      ghost var hdr, f := headers[..], fls;
      x := headers[p].freelist;
      headers[p] := headers[p].(freelist := chunk[x], inuse := headers[p].inuse + 1);
      fls := fls[p := fls[p][1..]];
      ObjectStep(pages.regions, slabs, hdr, headers[..], chunk, chunk, f, fls, lists, hand, p);
      LiveAfterTake(pages.regions, slabs, hdr, headers[..], chunk, f, fls, p, x);
    }

    /** Push object `x` on the free chain of slab `p` and count it as no longer in use. */
    method GiveObject(p: nat, x: nat)
      requires SlabSide({}) && p in slabs && |fls| == headers.Length
      requires LiveIn(pages.regions, headers[..], fls, p, x)
      modifies headers, `fls, `chunk
      ensures SlabSide({p})
      ensures p < headers.Length == |fls| && headers[p].inuse == old(headers[p].inuse) - 1 && headers[p].cls < CLASSES
      ensures headers[p] == old(headers[p]).(inuse := headers[p].inuse, freelist := headers[p].freelist)
      ensures forall q :: 0 <= q < headers.Length && q != p ==> headers[q] == old(headers[q])
      ensures forall y :: LiveSmall(y) <==> old(LiveSmall(y)) && y != x
      ensures fls[p] == [x] + old(fls[p])
    {
      hide Placed, ObjectsOk, IsObject, AddressOf, OutsideSame, LinksOk;
      SlabFacts(pages.regions, slabs, headers[..], chunk, fls, lists, {}, p);
      WriteInPage(pages.regions, headers[..], chunk, fls, p, x, headers[p].freelist);
      GiveObjects(AddressOf(pages.regions, p), headers[p], fls[p], chunk, x);
      ghost var hdr, f, c := headers[..], fls, chunk;
      chunk := chunk[x := headers[p].freelist];
      headers[p] := headers[p].(freelist := x, inuse := headers[p].inuse - 1);
      fls := fls[p := [x] + fls[p]];
      ObjectStep(pages.regions, slabs, hdr, headers[..], c, chunk, f, fls, lists, {}, p);
      assert {} + {p} == {p};
      LiveAfterGive(pages.regions, slabs, hdr, headers[..], f, fls, p, x);
    }

    /** Walk the free chain of slab `p`. */
    method FreelistContains(p: nat, x: nat) returns (found: bool)
      requires SlabSide({}) && p in slabs && p < |fls| && x != 0
      ensures found <==> x in fls[p]
    {
      SlabFacts(pages.regions, slabs, headers[..], chunk, fls, lists, {}, p);
      ghost var f, n := fls[p], 0;
      assert ObjectChain(chunk, headers[p].freelist, f);
      hide SlabSide;
      var cur := headers[p].freelist;
      while cur != 0
        invariant 0 <= n <= |f| && cur == At(f, n) && x !in f[..n]
        decreases |f| - n
      {
        if cur == x { return true; }
        assert chunk[f[n]] == At(f, n + 1);
        n := n + 1;
        cur := chunk[cur];
      }
      assert f[..n] == f;
      return false;
    }

    /** Move slab `p` to the list for `st`, which is not the empty list. */
    method CacheMove(p: nat, st: SlabState, ghost hand: set<nat>, ghost i: nat)
      requires SlabSide(hand) && p in slabs && hand <= {p} && p < headers.Length && headers[p].cls < CLASSES && st != Empty
      requires |lists| == LISTS && |fls| == headers.Length && headers[p].state != st
      requires var k := ListId(headers[p].cls, headers[p].state); i < |lists[k]| && lists[k][i] == p
      modifies headers, links, heads, `lists
      ensures SlabSide({p}) && (StateOk(headers[p]) ==> SlabSide({}))
      ensures headers[p] == old(headers[p]).(state := st) && |lists| == LISTS
      ensures lists[ListId(headers[p].cls, st)] == [p] + old(lists[ListId(headers[p].cls, st)])
      ensures forall x :: LiveSmall(x) <==> old(LiveSmall(x))
    {
      hide SlabsOk, LinksOk, LiveObject, OnList, StateOk;
      ghost var hdr := headers[..];
      CacheRemove(p, hand, i);
      CacheAdd(p, st, hand + {p});
      assert hand + {p} == {p} && {p} - {p} == {};
      StateKeepsLive(pages.regions, slabs, hdr, headers[..], fls);
    }

    // ----- refill -----

    ghost predicate LiveLarge(x: nat)
      requires Chained(pages.regions) && pages.frames.Length == Total(pages.regions)
      reads pages.frames
    {
      LargeIn(pages.regions, pages.frames[..], x)
    }

    /** Get a block of `n` pages from the page allocator and tag its head with `kind`. */
    method TaggedAlloc(n: nat, kind: Kind) returns (pa: nat, p: nat, ghost block: Block)
      requires PageSide() && pages.ready && 0 < n && kind != NoKind
      modifies pages, pages.frames, pages.links, pages.heads
      ensures pages.Valid() && pages.ready
      ensures pa == 0 ==> unchanged(pages, pages.frames, pages.links, pages.heads)
      ensures pa == 0 <==> n > MAX_PAGES || Exhausted(pages.regions, old(pages.mem), n)
      ensures pa != 0 ==> p < pages.managed && p !in slabs && pa == AddressOf(pages.regions, p)
      ensures pa != 0 ==> block == Block(p, block.order) && IsOrderFor(n, block.order)
      ensures pa != 0 ==> block !in old(pages.mem.used) && pages.mem.used == old(pages.mem.used) + {block}
      ensures pa != 0 && kind == LargeKind ==> KindsOk(pages.mem, pages.frames[..], slabs)
      ensures pa != 0 && kind == SlabKind && block.order == 0 ==> KindsOk(pages.mem, pages.frames[..], slabs + {p})
      ensures pa != 0 ==> forall q :: 0 <= q < pages.managed ==>
        pages.frames[q].kind == if q == p then kind else old(pages.frames[q].kind)
      ensures pa != 0 ==> old(pages.frames[p].kind) == NoKind
    {
      hide Represents, AddressOf, Exhausted, SmallestFrom, IsOrderFor;
      p := 0;
      ghost var from, m, fs := Block(0, 0), pages.mem, pages.frames[..];
      pa, from, block := pages.PAlloc(n);
      if pa == 0 { return; }
      var ok;
      ok, p := pages.PaToIndex(pa);
      AddressInjective(pages.regions, p, block.head);
      ghost var gs := pages.frames[..];
      FreshHead(m, pages.mem, fs, slabs, block);
      pages.PageSetKind(pa, kind);
      OnlyOneTagged(pages.regions, p);
      TagKinds(m, pages.mem, fs, pages.frames[..], slabs, block, kind);
    }

    /** Push every slot of the page on its free chain. */
    method CarveSlots(p: nat, base: nat, c: nat, start: nat, capacity: nat) returns (ghost f: seq<nat>)
      requires Chained(pages.regions) && p < headers.Length == Total(pages.regions) && c < CLASSES
      requires base == AddressOf(pages.regions, p) && base % PAGE_SIZE == 0 && base > 0
      requires start == base + FirstOffset(c) && capacity == Capacity(c)
      requires headers[p] == Header(c, 0, 0, capacity, Partial, SLAB_MAGIC)
      modifies headers, `chunk
      ensures headers[p] == Header(c, headers[p].freelist, 0, capacity, Partial, SLAB_MAGIC)
      ensures forall q :: 0 <= q < headers.Length && q != p ==> headers[q] == old(headers[q])
      ensures OutsideSame(pages.regions, old(chunk), chunk, p)
      ensures ObjectChain(chunk, headers[p].freelist, f) && NoDup(f) && |f| == capacity
      ensures forall k :: 0 <= k < |f| ==> IsObject(base, c, f[k])
    {
      hide AddressOf, ObjectChain, NoDup, OutsideSame, IsObject, SlotAddress, Capacity, FirstOffset;
      NothingCarved(pages.regions, chunk, p);
      f := [];
      for i := 0 to capacity
        invariant ObjectChain(chunk, headers[p].freelist, f) && NoDup(f) && |f| == i
        invariant forall k :: 0 <= k < i ==> IsObject(base, c, f[k]) && f[k] < SlotAddress(start, c, i)
        invariant OutsideSame(pages.regions, old(chunk), chunk, p)
        invariant headers[p] == Header(c, headers[p].freelist, 0, capacity, Partial, SLAB_MAGIC)
        invariant forall q :: 0 <= q < headers.Length && q != p ==> headers[q] == old(headers[q])
      {
        var x := SlotAddress(start, c, i);
        NextSlot(base, c, start, i);
        ObjectChainPush(chunk, headers[p].freelist, f, x);
        StillOutside(pages.regions, old(chunk), chunk, p, x, headers[p].freelist);
        chunk := chunk[x := headers[p].freelist];
        headers[p] := headers[p].(freelist := x);
        f := [x] + f;
      }
    }

    /** Lay out page `p` as an empty slab of class `c`: header, then every slot on the free chain. */
    method BuildSlab(p: nat, base: nat, c: nat)
      requires SlabSide({}) && p < headers.Length && p !in slabs && c < CLASSES && |fls| == headers.Length
      requires base == AddressOf(pages.regions, p) && base > 0
      modifies headers, `chunk, `fls
      ensures OthersSame(old(headers[..]), headers[..], old(fls), fls, p) && OutsideSame(pages.regions, old(chunk), chunk, p)
      ensures SlabOk(pages.regions, headers[..], chunk, fls, p)
      ensures headers[p].cls == c && headers[p].inuse == 0 && headers[p].state == Partial && fls[p] != []
    {
      AddressRegion(pages.regions, p, RegionAt(pages.regions, p));
      PageBelowTop(pages.regions, p);
      Layout(base, c);
      assert Capacity(c) > 0 && ClassSize(c) > 0;
      hide AlignUp, AddressOf, SlabsOk, ObjectChain, NoDup, OutsideSame, IsObject, ClassSize, Capacity, FirstOffset;
      var start := AlignUp(base + HEADER_BYTES, ClassSize(c));
      var capacity := (base + PAGE_SIZE - start) / ClassSize(c);
      headers[p] := Header(c, 0, 0, capacity, Partial, SLAB_MAGIC);
      ghost var f := CarveSlots(p, base, c, start, capacity);
      fls := fls[p := f];
    }

    /** A slab in front of class `c`'s partial list whose object is about to be taken. */
    ghost predicate Offered(p: nat, c: nat)
      reads `slabs, `fls, `lists, headers
    {
      && c < CLASSES && |lists| == LISTS && p in slabs && p < headers.Length == |fls|
      && headers[p].cls == c && headers[p].state == Partial && headers[p].inuse < headers[p].capacity
      && lists[ListId(c, Partial)] != [] && lists[ListId(c, Partial)][0] == p && fls[p] != []
    }

    /** Lay out page `p` and publish it as a partial slab of class `c`. */
    method PublishSlab(p: nat, base: nat, c: nat)
      requires SlabSide({}) && p < headers.Length && p !in slabs && c < CLASSES && |fls| == headers.Length
      requires base == AddressOf(pages.regions, p) && base > 0
      modifies headers, links, heads, `chunk, `fls, `lists, `slabs
      ensures SlabSide({p}) && Offered(p, c) && slabs == old(slabs) + {p}
      ensures forall x :: LiveSmall(x) <==> old(LiveSmall(x))
    {
      hide SlabsOk, LinksOk, OthersSame, OutsideSame, AddressOf, StateOk, LiveObject, SlabOk, OnList;
      ghost var hdr, f, c0 := headers[..], fls, chunk;
      BuildSlab(p, base, c);
      NewStep(pages.regions, slabs, hdr, headers[..], c0, chunk, f, fls, lists, p);
      NewSlabFacts(pages.regions, slabs, hdr, headers[..], chunk, f, fls, p);
      slabs := slabs + {p};
      hdr := headers[..];
      Lengths(pages.regions, slabs, hdr, chunk, fls, lists, {p});
      CacheAdd(p, Partial, {p});
      Lengths(pages.regions, slabs, headers[..], chunk, fls, lists, {p});
      StateKeepsLive(pages.regions, slabs, hdr, headers[..], fls);
    }

    /** The heap took the pages of its new slabs and nothing else. */
    ghost predicate Grown(was: set<nat>, used: set<Block>)
      reads `slabs, pages
    {
      was <= slabs && pages.mem.used == used + SlabBlocks(slabs - was)
    }

    /** It gave back the pages of the slabs it dropped, at most one, and nothing else. */
    ghost predicate Shrunk(was: set<nat>, used: set<Block>)
      reads `slabs, pages
    {
      slabs <= was && |was - slabs| <= 1 && pages.mem.used == used - SlabBlocks(was - slabs)
    }

    /** Get one page for class `c`. */
    method Refill(c: nat) returns (ok: bool, ghost p: nat)
      requires Valid() && c < CLASSES
      modifies headers, links, heads, `chunk, `fls, `lists, `slabs, pages, pages.frames, pages.links, pages.heads
      ensures !ok ==> unchanged(this, headers, links, heads, pages, pages.frames, pages.links, pages.heads)
      ensures ok <==> !Exhausted(pages.regions, old(pages.mem), 1)
      ensures ok ==> SlabSide({p}) && PageSide() && pages.ready && Offered(p, c) && Grown(old(slabs), old(pages.mem.used))
      ensures ok ==> forall x :: LiveSmall(x) <==> old(LiveSmall(x))
      ensures ok ==> forall x :: LiveLarge(x) <==> old(LiveLarge(x))
    {
      hide SlabsOk, KindsOk, Represents, LinksOk, Exhausted, AddressOf, LiveObject, LargeIn, Offered;
      Lengths(pages.regions, slabs, headers[..], chunk, fls, lists, {});
      ghost var fs := pages.frames[..];
      ghost var block;
      var base, q;
      base, q, block := TaggedAlloc(1, SlabKind);
      p := q;
      if base == 0 { return false, p; }
      OnePageOrder(block.order);
      LargeUnchanged(pages.regions, fs, pages.frames[..]);
      ghost var was := slabs;
      PublishSlab(q, base, c);
      assert slabs - was == {q};
      OneSlab(q);
      return true, q;
    }

    // ----- kmalloc -----

    method SizeToClass(size: nat) returns (cls: int)
      ensures cls < 0 <==> size == 0 || size > MAX_SLAB_SIZE
      ensures cls >= 0 ==> cls == ClassOf(size)
    {
      if size == 0 || size > MAX_SLAB_SIZE { return -1; }
      var i := 0;
      assert ClassSize(CLASSES - 1) == MAX_SLAB_SIZE;
      while i < CLASSES
        invariant 0 <= i <= CLASSES && forall j :: 0 <= j < i ==> ClassSize(j) < size
      {
        if size <= ClassSize(i) {
          OneClass(size, i);
          return i;
        }
        i := i + 1;
      }
      return -1;
    }

    /** Make the kept empty slab of class `c` partial again. */
    method ReuseEmpty(c: nat) returns (ghost p: nat)
      requires SlabSide({}) && c < CLASSES && |lists| == LISTS && lists[ListId(c, Partial)] == [] && heads[ListId(c, Empty)] >= 0
      modifies headers, links, heads, `lists
      ensures SlabSide({p}) && Offered(p, c)
      ensures forall x :: LiveSmall(x) <==> old(LiveSmall(x))
    {
      var q := heads[ListId(c, Empty)];
      p := q;
      assert lists[ListId(c, Empty)][0] == q && q in lists[ListId(c, Empty)];
      ListedFacts(pages.regions, slabs, headers[..], chunk, fls, lists, c, Empty, q);
      hide SlabsOk, LinksOk, StateOk, LiveObject;
      CacheMove(q, Partial, {}, 0);
    }

    /** The first partial slab of class `c`, from the list, the kept empty slab or a new page. */
    method EnsurePartial(c: nat) returns (ok: bool, ghost p: nat)
      requires Valid() && c < CLASSES
      modifies headers, links, heads, `chunk, `fls, `lists, `slabs, pages, pages.frames, pages.links, pages.heads
      ensures !ok ==> unchanged(this, headers, links, heads, pages, pages.frames, pages.links, pages.heads)
      // Refused exactly if every object of the class is live and no page is free; a page is taken only in the first case.
      ensures ok <==> !(old(ClassTaken(c)) && Exhausted(pages.regions, old(pages.mem), 1))
      ensures ok && slabs != old(slabs) ==> old(ClassTaken(c))
      ensures ok ==> SlabSide({p}) && PageSide() && pages.ready && Offered(p, c) && Grown(old(slabs), old(pages.mem.used))
      ensures ok ==> forall x :: LiveSmall(x) <==> old(LiveSmall(x))
      ensures ok ==> forall x :: LiveLarge(x) <==> old(LiveLarge(x))
    {
      hide SlabsOk, KindsOk, Represents, Exhausted, AddressOf, LiveObject, LargeIn, Offered, ClassTaken;
      Lengths(pages.regions, slabs, headers[..], chunk, fls, lists, {});
      ok := true;
      var first := heads[ListId(c, Partial)];
      if first >= 0 {
        p := first;
        ListedFree(c, Partial);
        FirstPartial(c, p);
        NoSlabs();
      } else if heads[ListId(c, Empty)] >= 0 {
        ListedFree(c, Empty);
        p := ReuseEmpty(c);
        NoSlabs();
      } else {
        NoneListed(c);
        ok, p := Refill(c);
      }
    }

    /** Every object of class `c` is live. */
    ghost predicate ClassTaken(c: nat)
      requires Chained(pages.regions) && headers.Length == |fls| == Total(pages.regions) && c < CLASSES
      reads `slabs, `fls, headers
    {
      AllTaken(pages.regions, slabs, headers[..], fls, c)
    }

    /** A slab on the partial or the empty list has an object to give. */
    lemma ListedFree(c: nat, st: SlabState)
      requires SlabSide({}) && c < CLASSES && |lists| == LISTS && |fls| == headers.Length && st != Full && heads[ListId(c, st)] >= 0
      ensures !ClassTaken(c)
    {
      hide SlabsOk, AllTaken, StateOk;
      var l := lists[ListId(c, st)];
      assert l != [] && l[0] in l;
      ListedFacts(pages.regions, slabs, headers[..], chunk, fls, lists, c, st, l[0]);
      NotFull(headers[l[0]], fls[l[0]]);
      FreeSlotLeft(pages.regions, slabs, headers[..], chunk, fls, lists, l[0]);
    }

    /** With both lists empty all slabs of the class are full. */
    lemma NoneListed(c: nat)
      requires SlabSide({}) && c < CLASSES && |lists| == LISTS && |fls| == headers.Length
      requires heads[ListId(c, Partial)] < 0 && heads[ListId(c, Empty)] < 0
      ensures ClassTaken(c)
    {
      hide SlabsOk, AllTaken;
      assert lists[ListId(c, Partial)] == [] && lists[ListId(c, Empty)] == [];
      DryTaken(pages.regions, slabs, headers[..], chunk, fls, lists, c);
    }

    lemma FirstPartial(c: nat, p: nat)
      requires SlabSide({}) && c < CLASSES && |lists| == LISTS && heads[ListId(c, Partial)] == p
      ensures SlabSide({p}) && Offered(p, c)
    {
      assert lists[ListId(c, Partial)][0] == p && p in lists[ListId(c, Partial)];
      ListedFacts(pages.regions, slabs, headers[..], chunk, fls, lists, c, Partial, p);
    }

    /** Take the first object of the first partial slab; the slab moves to the full list with its last object. */
    method TakeFirstObject(c: nat, ghost p: nat) returns (x: nat)
      requires SlabSide({p}) && Offered(p, c)
      modifies headers, links, heads, `lists, `fls, `objectAllocs
      ensures SlabSide({}) && objectAllocs == old(objectAllocs) + 1
      ensures p in slabs && p < headers.Length && headers[p].cls == c
      ensures !old(LiveSmall(x)) && forall y :: LiveSmall(y) <==> old(LiveSmall(y)) || y == x
      ensures IsObject(AddressOf(pages.regions, p), c, x)
    {
      hide SlabsOk, LinksOk, LiveObject, IsObject, AddressOf, OnList;
      PickedSlab(c, p);
      var q := heads[ListId(c, Partial)];
      x := TakeObject(q, {q});
      assert {q} + {q} == {q};
      if headers[q].inuse == headers[q].capacity {
        CacheMove(q, Full, {q}, 0);
      } else {
        Settle(pages.regions, slabs, headers[..], chunk, fls, lists, q);
      }
      objectAllocs := objectAllocs + 1;
    }

    /** The slab that the code picks is fit to serve: none of the error exits of the code is taken. */
    lemma PickedSlab(c: nat, p: nat)
      requires SlabSide({p}) && Offered(p, c)
      ensures heads[ListId(c, Partial)] == p
      ensures headers[p].state == Partial && headers[p].freelist != 0 && headers[p].inuse < headers[p].capacity
    {
      OfferedChain(pages.regions, slabs, headers[..], chunk, fls, lists, p);
    }

    ghost predicate Live(x: nat)
      requires Chained(pages.regions) && headers.Length == |fls| == Total(pages.regions) == pages.frames.Length
      reads `slabs, `fls, headers, pages.frames
    {
      LiveSmall(x) || LiveLarge(x)
    }

    /** Which block or slot a pointer was served from; meaningful when the pointer is not null. */
    ghost predicate ServedSmall(x: nat, size: nat, p: nat)
      requires Chained(pages.regions) && headers.Length == Total(pages.regions)
      reads `slabs, headers
    {
      && p in slabs && p < headers.Length && headers[p].cls < CLASSES
      && IsObject(AddressOf(pages.regions, p), headers[p].cls, x)
      && size <= ClassSize(headers[p].cls) && (headers[p].cls > 0 ==> ClassSize(headers[p].cls - 1) < size)
    }

    ghost predicate ServedLarge(x: nat, size: nat, b: Block)
      requires Chained(pages.regions)
      reads pages
    {
      && b in pages.mem.used && b.head < Total(pages.regions) && x == AddressOf(pages.regions, b.head)
      && size <= Pow2(b.order) * PAGE_SIZE
    }

    method KmallocSmall(size: nat) returns (x: nat, ghost p: nat)
      requires Valid() && 0 < size <= MAX_SLAB_SIZE
      modifies this, headers, links, heads, pages, pages.frames, pages.links, pages.heads
      ensures Valid() && ready == old(ready)
      ensures x == 0 ==> unchanged(this, headers, links, heads, pages, pages.frames, pages.links, pages.heads)
      ensures x == 0 <==> old(ClassTaken(ClassOf(size))) && Exhausted(pages.regions, old(pages.mem), 1)
      ensures slabs != old(slabs) ==> old(ClassTaken(ClassOf(size)))
      ensures x != 0 ==> !old(Live(x)) && forall y :: Live(y) <==> old(Live(y)) || y == x
      ensures x != 0 ==> ServedSmall(x, size, p) && Grown(old(slabs), old(pages.mem.used))
    {
      hide SlabsOk, KindsOk, Represents, LinksOk, Exhausted, AddressOf, LiveObject, LargeIn, IsObject, Offered, Grown, ClassTaken;
      var cls := SizeToClass(size);
      var ok;
      Lengths(pages.regions, slabs, headers[..], chunk, fls, lists, {});
      ok, p := EnsurePartial(cls);
      if !ok { return 0, p; }
      x := TakeFirstObject(cls, p);
      SlotNotPage(pages.regions, p, cls, x);
      LargeIsPage(x);
    }

    lemma LargeIsPage(x: nat)
      requires Chained(pages.regions) && AddressesOk(pages.regions) && pages.frames.Length == Total(pages.regions)
      ensures LiveLarge(x) ==> x % PAGE_SIZE == 0
    {
      ghost var fs := pages.frames[..];
      if p :| 0 <= p < |fs| && fs[p].kind == LargeKind && AddressOf(pages.regions, p) == x {
        AddressRegion(pages.regions, p, RegionAt(pages.regions, p));
      }
    }

    method KmallocLarge(size: nat) returns (x: nat, ghost block: Block)
      requires Valid() && MAX_SLAB_SIZE < size
      modifies pages, pages.frames, pages.links, pages.heads
      ensures Valid()
      ensures x == 0 ==> unchanged(pages, pages.frames, pages.links, pages.heads)
      ensures x == 0 <==> size > MAX_PAGES * PAGE_SIZE || Exhausted(pages.regions, old(pages.mem), (size + PAGE_SIZE - 1) / PAGE_SIZE)
      ensures x != 0 ==> !old(Live(x)) && forall y :: Live(y) <==> old(Live(y)) || y == x
      ensures x != 0 ==> ServedLarge(x, size, block) && block !in old(pages.mem.used) && pages.mem.used == old(pages.mem.used) + {block}
    {
      hide SlabsOk, KindsOk, Represents, LinksOk, Exhausted, AddressOf, LiveObject, LargeIn, IsOrderFor;
      block := Block(0, 0);
      Lengths(pages.regions, slabs, headers[..], chunk, fls, lists, {});
      if size > MAX_PAGES * PAGE_SIZE { return 0, block; }
      var n := (size + PAGE_SIZE - 1) / PAGE_SIZE;
      ghost var p;
      ghost var fs := pages.frames[..];
      x, p, block := TaggedAlloc(n, LargeKind);
      if x != 0 {
        EnoughPages(size, n, block.order);
        LargeAfterTag(pages.regions, fs, pages.frames[..], p);
        PageNotSlot(pages.regions, slabs, headers[..], chunk, fls, lists, x, p);
      }
    }

    /**
     `kmalloc`: null exactly when nothing fits, for a small size only if every object of the class is live and no page
     is free; otherwise a pointer that was not live, and nothing else changes owner. A small size takes a page only if
     every object of the class is live.
     */
    method Kmalloc(size: nat) returns (x: nat, ghost p: nat, ghost block: Block)
      requires Valid()
      modifies this, headers, links, heads, pages, pages.frames, pages.links, pages.heads
      ensures Valid() && ready == old(ready)
      ensures x == 0 ==> unchanged(this, headers, links, heads, pages, pages.frames, pages.links, pages.heads)
      ensures !old(ready) || size == 0 ==> x == 0
      ensures old(ready) && 0 < size <= MAX_SLAB_SIZE ==>
        (x == 0 <==> old(ClassTaken(ClassOf(size))) && Exhausted(pages.regions, old(pages.mem), 1))
      ensures old(ready) && 0 < size <= MAX_SLAB_SIZE && slabs != old(slabs) ==> old(ClassTaken(ClassOf(size)))
      ensures old(ready) && size > MAX_SLAB_SIZE ==>
        (x == 0 <==> size > MAX_PAGES * PAGE_SIZE || Exhausted(pages.regions, old(pages.mem), (size + PAGE_SIZE - 1) / PAGE_SIZE))
      ensures x != 0 ==> !old(Live(x)) && forall y :: Live(y) <==> old(Live(y)) || y == x
      ensures x != 0 && size <= MAX_SLAB_SIZE ==> ServedSmall(x, size, p) && Grown(old(slabs), old(pages.mem.used))
      ensures x != 0 && size > MAX_SLAB_SIZE ==>
        ServedLarge(x, size, block) && slabs == old(slabs) && pages.mem.used == old(pages.mem.used) + {block}
    {
      hide Exhausted, Live, ServedSmall, ServedLarge, Grown, ClassTaken, SlabsOk, KindsOk, Represents, LinksOk;
      x, p, block := 0, 0, Block(0, 0);
      if !ready || size == 0 { return; }
      if size <= MAX_SLAB_SIZE {
        x, p := KmallocSmall(size);
      } else {
        x, block := KmallocLarge(size);
      }
    }

    // ----- kfree -----

    /** Clear the owner of page `p` and give its block back. */
    method UntagAndFree(p: nat, pa: nat) returns (ghost block: Block)
      requires PageSide() && pages.ready && p < pages.managed && pa == AddressOf(pages.regions, p) && HeadUsed(pages.mem.used, p)
      modifies pages, pages.frames, pages.links, pages.heads
      ensures pages.Valid() && pages.ready && KindsOk(pages.mem, pages.frames[..], slabs - {p})
      ensures block in old(pages.mem.used) && block.head == p && pages.mem.used == old(pages.mem.used) - {block}
      ensures forall q :: 0 <= q < pages.managed ==>
        pages.frames[q].kind == if q == p then NoKind else old(pages.frames[q].kind)
    {
      hide Represents, AddressOf;
      ghost var m, fs := pages.mem, pages.frames[..];
      ghost var b :| b in pages.mem.used && b.head == p;
      assert pages.Live(pages.mem, pa);
      OnlyOneTagged(pages.regions, p);
      pages.PageSetKind(pa, NoKind);
      ghost var freed;
      freed, block := pages.PFree(pa);
      AddressInjective(pages.regions, p, block.head);
      UntagKinds(m, pages.mem, fs, pages.frames[..], slabs, block);
    }

    /** Slab `p` is on no list and has no object in use: forget it and poison its page with 0xCC. */
    method DropSlab(p: nat, base: nat)
      requires SlabSide({p}) && !OnList(lists, p) && p in slabs
      requires p < headers.Length == |fls| && headers[p].inuse == 0 && base == AddressOf(pages.regions, p)
      modifies headers, `chunk, `slabs
      ensures SlabSide({}) && slabs == old(slabs) - {p}
      ensures forall x :: LiveSmall(x) <==> old(LiveSmall(x))
    {
      ghost var hdr, c := headers[..], chunk;
      hide SlabsOk, LinksOk, AddressOf, LiveObject, OnList;
      headers[p] := Header(0xCCCC_CCCC, 0xCCCC_CCCC, 0xCCCC_CCCC, 0xCCCC_CCCC, Empty, 0xCCCC_CCCC);
      chunk := map x | x in chunk && x - x % PAGE_SIZE != base :: chunk[x];
      DropStep(pages.regions, slabs, hdr, headers[..], c, chunk, fls, lists, p);
      DropLive(pages.regions, slabs, hdr, headers[..], c, fls, lists, p);
      slabs := slabs - {p};
    }

    /** The page of such a slab goes back to the page allocator. */
    method Reclaim(p: nat, base: nat)
      requires SlabSide({p}) && PageSide() && pages.ready && Separate() && !OnList(lists, p) && p in slabs
      requires p < headers.Length == |fls| && headers[p].inuse == 0 && base == AddressOf(pages.regions, p)
      modifies headers, `chunk, `slabs, `reclaims, pages, pages.frames, pages.links, pages.heads
      ensures SlabSide({}) && PageSide() && pages.ready && reclaims == old(reclaims) + 1
      ensures slabs == old(slabs) - {p} && pages.mem.used == old(pages.mem.used) - {Block(p, 0)}
      ensures forall x :: LiveSmall(x) <==> old(LiveSmall(x))
      ensures forall x :: LiveLarge(x) <==> old(LiveLarge(x))
    {
      hide SlabsOk, LinksOk, KindsOk, Represents, AddressOf, LiveObject, LargeIn, HeadUsed, OnList;
      SlabIsHead(pages.mem, pages.frames[..], slabs, p);
      ghost var fs := pages.frames[..];
      SlabBlockOnly(pages.regions, pages.usable, pages.mem, pages.lists, fs, slabs, p);
      ghost var block := UntagAndFree(p, base);
      LargeUnchanged(pages.regions, fs, pages.frames[..]);
      DropSlab(p, base);
      reclaims := reclaims + 1;
    }

    /** Give a live object back; its slab changes list when it stops being full or becomes empty. */
    method ReturnObject(p: nat, base: nat, x: nat)
      requires Valid() && p in slabs && p < headers.Length == |fls| && base == AddressOf(pages.regions, p)
      requires LiveIn(pages.regions, headers[..], fls, p, x)
      modifies this, headers, links, heads, pages, pages.frames, pages.links, pages.heads
      ensures Valid() && ready == old(ready) && Shrunk(old(slabs), old(pages.mem.used)) && old(slabs) - slabs <= {p}
      ensures forall y :: LiveSmall(y) <==> old(LiveSmall(y)) && y != x
      ensures forall y :: LiveLarge(y) <==> old(LiveLarge(y))
    {
      hide SlabsOk, LinksOk, KindsOk, Represents, AddressOf, LiveObject, LargeIn, IsObject, OnList, Shrunk;
      Lengths(pages.regions, slabs, headers[..], chunk, fls, lists, {});
      ghost var i := ListPosition(pages.regions, slabs, headers[..], chunk, fls, lists, p);
      GiveObject(p, x);
      objectFrees := objectFrees + 1;
      if headers[p].state == Full {
        CacheMove(p, Partial, {p}, i);
        i := 0;
      }
      if headers[p].inuse == 0 {
        RetireSlab(p, base, i);
      } else {
        PartialNow(pages.regions, slabs, headers[..], chunk, fls, lists, p, i);
        SameSlabs();
      }
    }

    /** A slab without objects in use becomes the kept empty slab of its class, or is reclaimed if there is one. */
    method RetireSlab(p: nat, base: nat, ghost i: nat)
      requires SlabSide({p}) && PageSide() && pages.ready && Separate() && p in slabs && |lists| == LISTS
      requires p < headers.Length == |fls| && headers[p].inuse == 0 && base == AddressOf(pages.regions, p)
      requires headers[p].cls < CLASSES && headers[p].state == Partial
      requires i < |lists[ListId(headers[p].cls, Partial)]| && lists[ListId(headers[p].cls, Partial)][i] == p
      modifies headers, links, heads, `lists, `chunk, `slabs, `reclaims, pages, pages.frames, pages.links, pages.heads
      ensures SlabSide({}) && PageSide() && pages.ready && Shrunk(old(slabs), old(pages.mem.used))
      ensures slabs == if old(lists[ListId(headers[p].cls, Empty)]) == [] then old(slabs) else old(slabs) - {p}
      ensures forall x :: LiveSmall(x) <==> old(LiveSmall(x))
      ensures forall x :: LiveLarge(x) <==> old(LiveLarge(x))
    {
      hide SlabsOk, KindsOk, Represents, AddressOf, LiveObject, LargeIn, OnList, Shrunk;
      CacheRemove(p, {p}, i);
      assert {p} + {p} == {p};
      if heads[ListId(headers[p].cls, Empty)] < 0 {
        ghost var hdr := headers[..];
        CacheAdd(p, Empty, {p});
        assert {p} - {p} == {};
        StateKeepsLive(pages.regions, slabs, hdr, headers[..], fls);
        SameSlabs();
      } else {
        Reclaim(p, base);
        LessOne(old(slabs), old(pages.mem.used), p);
      }
    }

    /** The range, stride, count and free-chain tests of `kfree` accept exactly the live objects of the page. */
    method AcceptsObject(p: nat, base: nat, x: nat) returns (live: bool)
      requires SlabSide({}) && p in slabs && p < headers.Length == |fls| && base == AddressOf(pages.regions, p) && x != 0
      ensures live <==> LiveIn(pages.regions, headers[..], fls, p, x)
    {
      SlabFacts(pages.regions, slabs, headers[..], chunk, fls, lists, {}, p);
      AddressRegion(pages.regions, p, RegionAt(pages.regions, p));
      PageBelowTop(pages.regions, p);
      // Magic and cache of a slab page are always intact.
      assert headers[p].magic == SLAB_MAGIC && headers[p].cls < CLASSES;
      var c := headers[p].cls;
      Layout(base, c);
      hide SlabsOk, LinksOk, AddressOf, AlignUp;
      var start := AlignUp(base + HEADER_BYTES, ClassSize(c));
      var end := start + ClassSize(c) * headers[p].capacity;
      if x < start || x >= end { return false; }
      var offset := x - start;
      if offset % ClassSize(c) != 0 { return false; }
      if headers[p].inuse == 0 {
        NoneLive(pages.regions, headers[..], chunk, fls, p, x);
        return false;
      }
      var free := FreelistContains(p, x);
      return !free;
    }

    method FreeLarge(p: nat, base: nat) returns (ghost block: Block)
      requires Valid() && p < pages.managed && base == AddressOf(pages.regions, p) && pages.frames[p].kind == LargeKind
      modifies pages, pages.frames, pages.links, pages.heads
      ensures Valid() && block in old(pages.mem.used) && block.head == p && pages.mem.used == old(pages.mem.used) - {block}
      ensures forall y :: LiveLarge(y) <==> old(LiveLarge(y)) && y != base
    {
      hide SlabsOk, LinksOk, Represents, AddressOf, LargeIn, HeadUsed;
      ghost var fs := pages.frames[..];
      block := UntagAndFree(p, base);
      assert slabs - {p} == slabs;
      LargeAfterUntag(pages.regions, fs, pages.frames[..], p);
    }

    /**
     `kfree` acts if and only if the pointer is live, and then ends exactly that allocation. A large allocation's
     block goes back; the page of a slab goes back when its last object does and its class keeps an empty slab already.
     */
    method Kfree(x: nat) returns (ghost freed: bool, ghost block: Block)
      requires Valid()
      modifies this, headers, links, heads, pages, pages.frames, pages.links, pages.heads
      ensures Valid() && ready == old(ready)
      ensures freed <==> ready && old(Live(x))
      ensures !freed ==> unchanged(this, headers, links, heads, pages, pages.frames, pages.links, pages.heads)
      ensures freed ==> forall y :: Live(y) <==> old(Live(y)) && y != x
      ensures freed && old(LiveSmall(x)) ==> Shrunk(old(slabs), old(pages.mem.used))
      ensures freed && old(LiveSmall(x)) ==> forall q :: q in old(slabs) - slabs ==> q < pages.managed && AddressOf(pages.regions, q) == x - x % PAGE_SIZE
      ensures freed && old(LiveLarge(x)) ==> block in old(pages.mem.used) && block.head < pages.managed && AddressOf(pages.regions, block.head) == x
      ensures freed && old(LiveLarge(x)) ==> slabs == old(slabs) && pages.mem.used == old(pages.mem.used) - {block}
    {
      hide SlabsOk, LinksOk, KindsOk, Represents, AddressOf, LiveObject, LiveIn, LargeIn, IsObject, Shrunk;
      freed, block := false, Block(0, 0);
      Lengths(pages.regions, slabs, headers[..], chunk, fls, lists, {});
      if !ready { return; }
      if x == 0 {
        NullNotLive();
        return;
      }
      var base := x - x % PAGE_SIZE;
      var ok, idx, kind, head := pages.PageQuery(base);
      if !ok {
        LivePage(x);
        return;
      }
      PageOwner(x, idx);
      if kind == NoKind { return; }
      if kind == SlabKind {
        var live := AcceptsObject(idx, base, x);
        if !live { return; }
        freed := true;
        ReturnObject(idx, base, x);
      } else {
        if x % PAGE_SIZE != 0 { return; }
        if !head { return; }
        freed := true;
        block := FreeLarge(idx, base);
      }
    }

    lemma NullNotLive()
      requires Valid() && |fls| == headers.Length
      ensures !Live(0)
    {
      hide SlabsOk, LinksOk, KindsOk, Represents, AddressOf, LiveObject, LiveIn, LargeIn, IsObject;
      if LiveSmall(0) {
        var q := SlotPage(pages.regions, slabs, headers[..], chunk, fls, lists, 0);
      } else if LiveLarge(0) {
        var q := LargePage(pages.regions, pages.mem, pages.frames[..], slabs, 0);
        OwnedUsable(pages.regions, pages.usable, pages.mem, pages.lists, pages.frames[..], q);
      }
    }

    /** A live pointer lies in a managed page. */
    lemma LivePage(x: nat)
      requires Valid() && |fls| == headers.Length
      requires forall p :: 0 <= p < pages.managed ==> AddressOf(pages.regions, p) != x - x % PAGE_SIZE
      ensures !Live(x)
    {
      hide SlabsOk, LinksOk, KindsOk, Represents, AddressOf, LiveObject, LiveIn, LargeIn, IsObject, HeadUsed;
      if LiveSmall(x) {
        var q := SlotPage(pages.regions, slabs, headers[..], chunk, fls, lists, x);
      } else if LiveLarge(x) {
        var q := LargePage(pages.regions, pages.mem, pages.frames[..], slabs, x);
      }
    }

    /** The owner tag of a page decides what in it can be live. */
    lemma PageOwner(x: nat, p: nat)
      requires Valid() && |fls| == headers.Length && p < pages.managed && AddressOf(pages.regions, p) == x - x % PAGE_SIZE
      ensures pages.frames[p].kind == NoKind ==> !Live(x)
      ensures pages.frames[p].kind == SlabKind ==>
        p in slabs && (Live(x) <==> LiveIn(pages.regions, headers[..], fls, p, x)) && !LiveLarge(x)
      ensures pages.frames[p].kind == LargeKind ==>
        pages.Live(pages.mem, AddressOf(pages.regions, p)) && (Live(x) <==> x % PAGE_SIZE == 0) && !LiveSmall(x)
    {
      hide SlabsOk, LinksOk, KindsOk, Represents, AddressOf, LiveObject, LiveIn, LargeIn, IsObject;
      OwnerDecides(pages.regions, pages.mem, pages.frames[..], slabs, headers[..], chunk, fls, lists, x, p);
      if pages.frames[p].kind == LargeKind {
        var b :| b in pages.mem.used && b.head == p;
        assert pages.Live(pages.mem, AddressOf(pages.regions, p));
      }
    }

    lemma NoSlabs()
      ensures Grown(slabs, pages.mem.used)
    {
      assert SlabBlocks(slabs - slabs) == {};
    }

    lemma LessOne(was: set<nat>, used: set<Block>, p: nat)
      requires p in was && slabs == was - {p} && pages.mem.used == used - {Block(p, 0)}
      ensures Shrunk(was, used)
    {
      assert was - slabs == {p};
      OneSlab(p);
    }

    lemma SameSlabs()
      ensures Shrunk(slabs, pages.mem.used)
    {
      assert slabs - slabs == {};
      assert SlabBlocks(slabs - slabs) == {};
    }

    /** No leak: once nothing is live, the heap holds at most one page per class. */
    lemma NothingLeaks()
      requires Valid() && |fls| == headers.Length && forall x :: !Live(x)
      ensures var held := pages.mem.used - Untagged(pages.mem, pages.frames[..]);
              held == SlabBlocks(slabs) && |held| <= CLASSES && forall b :: b in held ==> b.order == 0
    {
      hide SlabsOk, LinksOk, KindsOk, Represents, AddressOf;
      var fs, hdr := pages.frames[..], headers[..];
      HeapParts(pages.regions, pages.usable, pages.mem, pages.lists, fs, slabs);
      forall x ensures !LargeIn(pages.regions, fs, x) { assert !Live(x); }
      NoLargeBlocks(pages.regions, pages.mem, fs);
      forall p, q | p in slabs && q in slabs ensures p < |hdr| && hdr[p].cls < CLASSES && (q < |hdr| && hdr[p].cls == hdr[q].cls ==> p == q) {
        forall x ensures !LiveIn(pages.regions, hdr, fls, p, x) && !LiveIn(pages.regions, hdr, fls, q, x) { assert !Live(x); }
        IdleSlabs(pages.regions, slabs, hdr, chunk, fls, lists, p, q);
      }
      OnePerClass(slabs, hdr, CLASSES);
      SlabBlocksSize(slabs);
    }

    // ----- what other code may do -----

    /** Pages taken directly from the page allocator carry no owner and disturb nothing here. */
    method ClientPAlloc(n: nat) returns (pa: nat)
      requires Valid()
      modifies pages, pages.frames, pages.links, pages.heads
      ensures Valid()
      ensures forall y :: LiveLarge(y) <==> old(LiveLarge(y))
    {
      hide SlabsOk, LinksOk, Represents, AddressOf, LargeIn, Exhausted, SmallestFrom, IsOrderFor;
      ghost var from, block, m, fs := Block(0, 0), Block(0, 0), pages.mem, pages.frames[..];
      pa, from, block := pages.PAlloc(n);
      MoreUsedKinds(m, pages.mem, fs, pages.frames[..], slabs);
      LargeUnchanged(pages.regions, fs, pages.frames[..]);
    }

    /** Such pages may be returned directly, as long as they do not belong to `kmalloc`. */
    method ClientPFree(pa: nat)
      requires Valid() && forall p :: 0 <= p < pages.managed && AddressOf(pages.regions, p) == pa ==> pages.frames[p].kind == NoKind
      modifies pages, pages.frames, pages.links, pages.heads
      ensures Valid()
      ensures forall y :: LiveLarge(y) <==> old(LiveLarge(y))
    {
      hide SlabsOk, LinksOk, Represents, AddressOf, LargeIn;
      ghost var freed, block, m, fs := false, Block(0, 0), pages.mem, pages.frames[..];
      freed, block := pages.PFree(pa);
      if freed {
        UntagKinds(m, pages.mem, fs, pages.frames[..], slabs, block);
        assert slabs - {block.head} == slabs;
      }
      LargeUnchanged(pages.regions, fs, pages.frames[..]);
    }

    /** A live object is its owner's to write, all of it. */
    method ClientWriteObject(p: nat, x: nat, words: map<nat, nat>)
      requires Valid() && p in slabs && |fls| == headers.Length && LiveIn(pages.regions, headers[..], fls, p, x)
      requires forall y :: y in words ==> x <= y && y + WORD <= x + ClassSize(headers[p].cls)
      modifies `chunk
      ensures Valid() && chunk == old(chunk) + words
    {
      hide LinksOk, KindsOk, Represents, AddressOf, IsObject;
      WriteLive(pages.regions, slabs, headers[..], chunk, fls, lists, p, x, words);
      chunk := chunk + words;
    }

    /** So is any page that is not a slab: what a header there would occupy and every word of it. */
    method ClientWritePage(p: nat, h: Header, words: map<nat, nat>)
      requires Valid() && p < headers.Length && p !in slabs && |fls| == headers.Length
      requires forall y :: y in words ==> y - y % PAGE_SIZE == AddressOf(pages.regions, p)
      modifies headers, `chunk
      ensures Valid() && headers[p] == h && chunk == old(chunk) + words
      ensures forall q :: 0 <= q < headers.Length && q != p ==> headers[q] == old(headers[q])
      ensures forall y :: LiveSmall(y) <==> old(LiveSmall(y))
    {
      hide LinksOk, KindsOk, Represents, AddressOf, IsObject;
      ghost var hdr := headers[..];
      headers[p] := h;
      WriteForeign(pages.regions, slabs, hdr, headers[..], chunk, chunk + words, fls, lists, p);
      chunk := chunk + words;
    }
  }

  lemma SlotPage(rs: seq<Region>, slabs: set<nat>, hdr: seq<Header>, chunk: map<nat, nat>, fls: seq<seq<nat>>,
                 lists: seq<seq<nat>>, x: nat) returns (p: nat)
    requires Chained(rs) && AddressesOk(rs) && SlabsOk(rs, slabs, hdr, chunk, fls, lists, {})
    requires LiveObject(rs, slabs, hdr, fls, x)
    ensures p in slabs && LiveIn(rs, hdr, fls, p, x) && AddressOf(rs, p) == x - x % PAGE_SIZE && x != 0
  {
    p :| p in slabs && LiveIn(rs, hdr, fls, p, x);
    AddressRegion(rs, p, RegionAt(rs, p));
    ObjectPlace(AddressOf(rs, p), hdr[p].cls, x, x);
  }

  lemma LargePage(rs: seq<Region>, m: Mem, fs: seq<Frame>, slabs: set<nat>, x: nat) returns (p: nat)
    requires Chained(rs) && AddressesOk(rs) && |fs| == Total(rs) && KindsOk(m, fs, slabs) && LargeIn(rs, fs, x)
    ensures p < |fs| && fs[p].kind == LargeKind && AddressOf(rs, p) == x && x % PAGE_SIZE == 0 && HeadUsed(m.used, p)
  {
    p :| 0 <= p < |fs| && fs[p].kind == LargeKind && AddressOf(rs, p) == x;
    AddressRegion(rs, p, RegionAt(rs, p));
  }

  lemma OwnedUsable(rs: seq<Region>, usable: set<nat>, m: Mem, lists: seq<seq<nat>>, fs: seq<Frame>, p: nat)
    requires Chained(rs) && Represents(rs, usable, m, lists, fs, {}) && HeadUsed(m.used, p)
    ensures p in usable
  {
    var b :| b in m.used && b.head == p;
    HandUsable(rs, usable, m, b, p);
  }

  lemma OwnerDecides(rs: seq<Region>, m: Mem, fs: seq<Frame>, slabs: set<nat>, hdr: seq<Header>, chunk: map<nat, nat>,
                     fls: seq<seq<nat>>, lists: seq<seq<nat>>, x: nat, p: nat)
    requires Chained(rs) && AddressesOk(rs) && |fs| == |hdr| == |fls| == Total(rs) && p < |fs|
    requires KindsOk(m, fs, slabs) && SlabsOk(rs, slabs, hdr, chunk, fls, lists, {}) && AddressOf(rs, p) == x - x % PAGE_SIZE
    ensures fs[p].kind != SlabKind ==> !LiveObject(rs, slabs, hdr, fls, x)
    ensures fs[p].kind == SlabKind ==> p in slabs && (LiveObject(rs, slabs, hdr, fls, x) <==> LiveIn(rs, hdr, fls, p, x))
    ensures fs[p].kind != LargeKind ==> !LargeIn(rs, fs, x)
    ensures fs[p].kind == LargeKind ==> (LargeIn(rs, fs, x) <==> x % PAGE_SIZE == 0) && HeadUsed(m.used, p)
  {
    hide SlabsOk, AddressOf, IsObject;
    if LiveObject(rs, slabs, hdr, fls, x) {
      var q := SlotPage(rs, slabs, hdr, chunk, fls, lists, x);
      AddressInjective(rs, p, q);
    }
    if LargeIn(rs, fs, x) {
      var q := LargePage(rs, m, fs, slabs, x);
      AddressInjective(rs, p, q);
    }
  }

  /** Where a slab sits on its list. */
  ghost function ListPosition(rs: seq<Region>, slabs: set<nat>, hdr: seq<Header>, chunk: map<nat, nat>, fls: seq<seq<nat>>,
                              lists: seq<seq<nat>>, p: nat): (i: nat)
    requires Chained(rs) && SlabsOk(rs, slabs, hdr, chunk, fls, lists, {}) && p in slabs
    ensures p < |hdr| && hdr[p].cls < CLASSES && |lists| == LISTS && StateOk(hdr[p])
    ensures var k := ListId(hdr[p].cls, hdr[p].state); i < |lists[k]| && lists[k][i] == p
  {
    var s := lists[ListId(hdr[p].cls, hdr[p].state)];
    assert p in s;
    var i :| 0 <= i < |s| && s[i] == p;
    i
  }

  /** After a return that leaves objects in use, the slab is a proper partial slab. */
  lemma PartialNow(rs: seq<Region>, slabs: set<nat>, hdr: seq<Header>, chunk: map<nat, nat>, fls: seq<seq<nat>>,
                   lists: seq<seq<nat>>, p: nat, i: nat)
    requires Chained(rs) && SlabsOk(rs, slabs, hdr, chunk, fls, lists, {p}) && p in slabs && p < |hdr| == |fls|
    requires hdr[p].cls < CLASSES && hdr[p].state == Partial && hdr[p].inuse > 0 && fls[p] != []
    requires |lists| == LISTS && i < |lists[ListId(hdr[p].cls, Partial)]| && lists[ListId(hdr[p].cls, Partial)][i] == p
    ensures SlabsOk(rs, slabs, hdr, chunk, fls, lists, {})
  {
    SlabClass(rs, hdr, chunk, fls, p);
    Settle(rs, slabs, hdr, chunk, fls, lists, p);
  }

  lemma OneSlab(p: nat)
    ensures SlabBlocks({p}) == {Block(p, 0)}
  {
  }

  /** Allocated blocks with the same head are the same. */
  lemma OneBlock(rs: seq<Region>, usable: set<nat>, m: Mem, lists: seq<seq<nat>>, fs: seq<Frame>, b: Block, c: Block)
    requires Chained(rs) && Represents(rs, usable, m, lists, fs, {}) && b in m.used && c in m.used && b.head == c.head
    ensures b == c
  {
    UsedMeetOnce(rs, usable, m, b, c, b.head);
  }

  lemma SlabBlockOnly(rs: seq<Region>, usable: set<nat>, m: Mem, lists: seq<seq<nat>>, fs: seq<Frame>, slabs: set<nat>, p: nat)
    requires Chained(rs) && Represents(rs, usable, m, lists, fs, {}) && KindsOk(m, fs, slabs) && p in slabs
    ensures forall b :: b in m.used && b.head == p ==> b == Block(p, 0)
  {
    forall b | b in m.used && b.head == p ensures b == Block(p, 0) {
      OneBlock(rs, usable, m, lists, fs, b, Block(p, 0));
    }
  }

  lemma SlabIsHead(m: Mem, fs: seq<Frame>, slabs: set<nat>, p: nat)
    requires KindsOk(m, fs, slabs) && p in slabs
    ensures p < |fs| && fs[p].kind == SlabKind && HeadUsed(m.used, p)
  {
    assert Block(p, 0).head == p;
  }

  lemma UntagKinds(m: Mem, m': Mem, fs: seq<Frame>, gs: seq<Frame>, slabs: set<nat>, b: Block)
    requires KindsOk(m, fs, slabs) && b.head < |fs| == |gs| && m'.used == m.used - {b}
    requires forall q :: 0 <= q < |fs| ==> gs[q].kind == if q == b.head then NoKind else fs[q].kind
    ensures KindsOk(m', gs, slabs - {b.head})
  {
    forall p | 0 <= p < |gs| && gs[p].kind == LargeKind ensures HeadUsed(m'.used, p) {
      var c :| c in m.used && c.head == p;
      assert c in m'.used;
    }
  }

  lemma DropLive(rs: seq<Region>, slabs: set<nat>, hdr: seq<Header>, hdr': seq<Header>, chunk: map<nat, nat>,
                 fls: seq<seq<nat>>, lists: seq<seq<nat>>, p: nat)
    requires Chained(rs) && SlabsOk(rs, slabs, hdr, chunk, fls, lists, {p}) && p in slabs && p < |hdr| && hdr[p].inuse == 0
    requires OthersSame(hdr, hdr', fls, fls, p)
    ensures forall x :: LiveObject(rs, slabs - {p}, hdr', fls, x) <==> LiveObject(rs, slabs, hdr, fls, x)
  {
    forall x ensures LiveObject(rs, slabs - {p}, hdr', fls, x) <==> LiveObject(rs, slabs, hdr, fls, x) {
      NoneLive(rs, hdr, chunk, fls, p, x);
      forall q | q in slabs && q != p ensures LiveIn(rs, hdr', fls, q, x) <==> LiveIn(rs, hdr, fls, q, x) {}
    }
  }

  lemma EnoughPages(size: nat, n: nat, k: nat)
    requires n == (size + PAGE_SIZE - 1) / PAGE_SIZE && IsOrderFor(n, k)
    ensures size <= Pow2(k) * PAGE_SIZE
  {
    hide Pow2;
    MulMonotone(n, Pow2(k), PAGE_SIZE);
  }

  /** Tagging an unowned page as large makes exactly its address a large allocation. */
  lemma LargeAfterTag(rs: seq<Region>, fs: seq<Frame>, gs: seq<Frame>, p: nat)
    requires Chained(rs) && AddressesOk(rs) && |fs| == |gs| == Total(rs) && p < |fs| && fs[p].kind == NoKind
    requires forall q :: 0 <= q < |fs| ==> gs[q].kind == if q == p then LargeKind else fs[q].kind
    ensures !LargeIn(rs, fs, AddressOf(rs, p))
    ensures forall x :: LargeIn(rs, gs, x) <==> LargeIn(rs, fs, x) || x == AddressOf(rs, p)
  {
    OnlyOneTagged(rs, p);
    hide AddressOf;
    forall x ensures LargeIn(rs, gs, x) <==> LargeIn(rs, fs, x) || x == AddressOf(rs, p) {
      if q :| 0 <= q < |fs| && fs[q].kind == LargeKind && AddressOf(rs, q) == x { assert gs[q].kind == LargeKind; }
      assert gs[p].kind == LargeKind;
    }
  }

  /** Clearing the tag of a large allocation ends exactly its life. */
  lemma LargeAfterUntag(rs: seq<Region>, fs: seq<Frame>, gs: seq<Frame>, p: nat)
    requires Chained(rs) && AddressesOk(rs) && |fs| == |gs| == Total(rs) && p < |fs|
    requires forall q :: 0 <= q < |fs| ==> gs[q].kind == if q == p then NoKind else fs[q].kind
    ensures forall x :: LargeIn(rs, gs, x) <==> LargeIn(rs, fs, x) && x != AddressOf(rs, p)
  {
    OnlyOneTagged(rs, p);
    hide AddressOf;
    forall x ensures LargeIn(rs, gs, x) <==> LargeIn(rs, fs, x) && x != AddressOf(rs, p) {
      if q :| 0 <= q < |fs| && fs[q].kind == LargeKind && AddressOf(rs, q) == x && q != p { assert gs[q].kind == LargeKind; }
    }
  }

  /** A page address is no slot. */
  lemma PageNotSlot(rs: seq<Region>, slabs: set<nat>, hdr: seq<Header>, chunk: map<nat, nat>, fls: seq<seq<nat>>,
                    lists: seq<seq<nat>>, x: nat, p: nat)
    requires Chained(rs) && AddressesOk(rs) && SlabsOk(rs, slabs, hdr, chunk, fls, lists, {})
    requires p < Total(rs) && x == AddressOf(rs, p)
    ensures !LiveObject(rs, slabs, hdr, fls, x)
  {
    AddressRegion(rs, p, RegionAt(rs, p));
    if q :| q in slabs && LiveIn(rs, hdr, fls, q, x) {
      SlotNotPage(rs, q, hdr[q].cls, x);
    }
  }

  /** No slot starts a page. */
  lemma SlotNotPage(rs: seq<Region>, p: nat, c: nat, x: nat)
    requires Chained(rs) && AddressesOk(rs) && p < Total(rs) && c < CLASSES && IsObject(AddressOf(rs, p), c, x)
    ensures x % PAGE_SIZE != 0 && x > 0
  {
    AddressRegion(rs, p, RegionAt(rs, p));
    ObjectPlace(AddressOf(rs, p), c, x, x);
  }

  lemma OfferedChain(rs: seq<Region>, slabs: set<nat>, hdr: seq<Header>, chunk: map<nat, nat>, fls: seq<seq<nat>>,
                     lists: seq<seq<nat>>, p: nat)
    requires Chained(rs) && SlabsOk(rs, slabs, hdr, chunk, fls, lists, {p}) && p in slabs && p < |fls| && fls[p] != []
    ensures p < |hdr| && hdr[p].freelist == fls[p][0] && hdr[p].freelist != 0
  {
    SlabClass(rs, hdr, chunk, fls, p);
  }

  /** A slab that kept its list and is in the state the list promises needs no more attention. */
  lemma Settle(rs: seq<Region>, slabs: set<nat>, hdr: seq<Header>, chunk: map<nat, nat>, fls: seq<seq<nat>>,
               lists: seq<seq<nat>>, p: nat)
    requires Chained(rs) && SlabsOk(rs, slabs, hdr, chunk, fls, lists, {p}) && p in slabs && p < |hdr| && StateOk(hdr[p])
    requires hdr[p].cls < CLASSES && p in lists[ListId(hdr[p].cls, hdr[p].state)]
    ensures SlabsOk(rs, slabs, hdr, chunk, fls, lists, {})
  {
    SettlePlaced(slabs, hdr, lists, {p}, p);
    assert {p} - {p} == {};
  }

  /** What membership of a list says about a slab. */
  lemma ListedFacts(rs: seq<Region>, slabs: set<nat>, hdr: seq<Header>, chunk: map<nat, nat>, fls: seq<seq<nat>>,
                    lists: seq<seq<nat>>, c: nat, st: SlabState, p: nat)
    requires Chained(rs) && SlabsOk(rs, slabs, hdr, chunk, fls, lists, {}) && c < CLASSES && p in lists[ListId(c, st)]
    ensures p in slabs && p < |hdr| == |fls| && hdr[p].cls == c && hdr[p].state == st && StateOk(hdr[p])
    ensures hdr[p].inuse + |fls[p]| == hdr[p].capacity && hdr[p].capacity > 0
    ensures SlabsOk(rs, slabs, hdr, chunk, fls, lists, {p})
  {
    ListIdInjective(c, st, hdr[p].cls, hdr[p].state);
    SlabClass(rs, hdr, chunk, fls, p);
  }

  lemma StateKeepsLive(rs: seq<Region>, slabs: set<nat>, hdr: seq<Header>, hdr': seq<Header>, fls: seq<seq<nat>>)
    requires Chained(rs) && |hdr| == |hdr'| == |fls| == Total(rs)
    requires forall q :: 0 <= q < |hdr| ==> hdr'[q].cls == hdr[q].cls
    ensures forall x :: LiveObject(rs, slabs, hdr', fls, x) <==> LiveObject(rs, slabs, hdr, fls, x)
  {
    forall x, q | q in slabs ensures LiveIn(rs, hdr', fls, q, x) <==> LiveIn(rs, hdr, fls, q, x) {}
  }

  lemma OnePageOrder(k: nat)
    requires IsOrderFor(1, k)
    ensures k == 0
  {
    assert k > 0 ==> Pow2(0) < 1;
  }

  lemma Lengths(rs: seq<Region>, slabs: set<nat>, hdr: seq<Header>, chunk: map<nat, nat>, fls: seq<seq<nat>>,
                lists: seq<seq<nat>>, hand: set<nat>)
    requires Chained(rs) && SlabsOk(rs, slabs, hdr, chunk, fls, lists, hand)
    ensures |hdr| == |fls| == Total(rs) && |lists| == LISTS
  {
  }

  /** A fresh slab has all its slots free, so it adds no live object. */
  lemma NewSlabFacts(rs: seq<Region>, slabs: set<nat>, hdr: seq<Header>, hdr': seq<Header>, chunk': map<nat, nat>,
                     fls: seq<seq<nat>>, fls': seq<seq<nat>>, p: nat)
    requires Chained(rs) && |hdr| == |fls| == Total(rs) && p < Total(rs) && p !in slabs
    requires OthersSame(hdr, hdr', fls, fls', p) && SlabOk(rs, hdr', chunk', fls', p) && hdr'[p].inuse == 0
    ensures hdr'[p].cls < CLASSES && hdr'[p].capacity > 0
    ensures forall x :: LiveObject(rs, slabs + {p}, hdr', fls', x) <==> LiveObject(rs, slabs, hdr, fls, x)
  {
    forall x ensures LiveObject(rs, slabs + {p}, hdr', fls', x) <==> LiveObject(rs, slabs, hdr, fls, x) {
      NoneLive(rs, hdr', chunk', fls', p, x);
      forall q | q in slabs ensures LiveIn(rs, hdr', fls', q, x) <==> LiveIn(rs, hdr, fls, q, x) {}
    }
  }

  lemma PageBelowTop(rs: seq<Region>, p: nat)
    requires Chained(rs) && AddressesOk(rs) && p < Total(rs)
    ensures AddressOf(rs, p) + PAGE_SIZE < U64
  {
  }

  function SlotAddress(start: nat, c: nat, i: nat): nat
    requires c < CLASSES
  {
    start + i * ClassSize(c)
  }

  lemma NextSlot(base: nat, c: nat, start: nat, i: nat)
    requires c < CLASSES && i < Capacity(c) && base % PAGE_SIZE == 0 && start == base + FirstOffset(c)
    ensures var x := SlotAddress(start, c, i); x > 0 && IsObject(base, c, x) && x - x % PAGE_SIZE == base
    ensures SlotAddress(start, c, i) < SlotAddress(start, c, i + 1)
  {
    assert ClassSize(c) > 0 && FirstOffset(c) > 0;
    hide ClassSize, FirstOffset, Capacity;
    var x, z := SlotAddress(start, c, i), ClassSize(c);
    MulMonotone(i + 1, Capacity(c), z);
    assert (i + 1) * z == i * z + z;
    ModUnique(i * z, z, i, 0);
    ObjectPlace(base, c, x, x);
  }

  lemma StillOutside(rs: seq<Region>, before: map<nat, nat>, now: map<nat, nat>, p: nat, x: nat, v: nat)
    requires Chained(rs) && p < Total(rs) && OutsideSame(rs, before, now, p) && x - x % PAGE_SIZE == AddressOf(rs, p)
    ensures OutsideSame(rs, before, now[x := v], p)
  {
  }

  lemma OnlyOneTagged(rs: seq<Region>, p: nat)
    requires Chained(rs) && AddressesOk(rs) && p < Total(rs)
    ensures forall q :: 0 <= q < Total(rs) && AddressOf(rs, q) == AddressOf(rs, p) ==> q == p
  {
    forall q | 0 <= q < Total(rs) && AddressOf(rs, q) == AddressOf(rs, p) ensures q == p {
      AddressInjective(rs, q, p);
    }
  }

  /** What the page allocator hands out had no owner. */
  lemma FreshHead(m: Mem, m': Mem, fs: seq<Frame>, slabs: set<nat>, b: Block)
    requires KindsOk(m, fs, slabs) && b.head < |fs| && (forall c :: c in m.used ==> Apart(c, b))
    ensures b.head !in slabs && fs[b.head].kind == NoKind
  {
    assert forall c :: c in m.used ==> c.head != b.head;
  }

  lemma TagKinds(m: Mem, m': Mem, fs: seq<Frame>, gs: seq<Frame>, slabs: set<nat>, b: Block, kind: Kind)
    requires KindsOk(m, fs, slabs) && b.head < |fs| == |gs| && m'.used == m.used + {b} && kind != NoKind && b.head !in slabs
    requires forall q :: 0 <= q < |fs| ==> gs[q].kind == if q == b.head then kind else fs[q].kind
    ensures kind == LargeKind ==> KindsOk(m', gs, slabs)
    ensures kind == SlabKind && b.order == 0 ==> KindsOk(m', gs, slabs + {b.head})
  {
    forall p | 0 <= p < |gs| && gs[p].kind == LargeKind ensures HeadUsed(m'.used, p) {
      if p == b.head {
        assert b in m'.used;
      } else {
        var c :| c in m.used && c.head == p;
        assert c in m'.used;
      }
    }
  }

  lemma SlabFacts(rs: seq<Region>, slabs: set<nat>, hdr: seq<Header>, chunk: map<nat, nat>, fls: seq<seq<nat>>,
                  lists: seq<seq<nat>>, hand: set<nat>, p: nat)
    requires Chained(rs) && SlabsOk(rs, slabs, hdr, chunk, fls, lists, hand) && p in slabs
    ensures |hdr| == |fls| == Total(rs) && SlabOk(rs, hdr, chunk, fls, p) && hdr[p].cls < CLASSES
    ensures forall q :: q in slabs ==> q < Total(rs) && hdr[q].cls < CLASSES
  {
  }

  lemma ListLengths(rs: seq<Region>, slabs: set<nat>, hdr: seq<Header>, chunk: map<nat, nat>, fls: seq<seq<nat>>,
                    lists: seq<seq<nat>>, hand: set<nat>)
    requires Chained(rs) && SlabsOk(rs, slabs, hdr, chunk, fls, lists, hand)
    ensures |lists| == LISTS
  {
  }

  /** A slab's objects do not depend on its state field. */
  lemma StateKeeps(rs: seq<Region>, slabs: set<nat>, hdr: seq<Header>, hdr': seq<Header>, chunk: map<nat, nat>,
                   fls: seq<seq<nat>>, p: nat)
    requires Chained(rs) && |hdr| == |hdr'| == |fls| == Total(rs) && p < |hdr|
    requires forall q :: q in slabs ==> SlabOk(rs, hdr, chunk, fls, q)
    requires forall q :: 0 <= q < |hdr| ==> hdr'[q] == hdr[q].(state := hdr'[q].state)
    ensures forall q :: q in slabs ==> SlabOk(rs, hdr', chunk, fls, q)
  {
    forall q | q in slabs ensures SlabOk(rs, hdr', chunk, fls, q) {
      assert SlabOk(rs, hdr, chunk, fls, q);
    }
  }

  lemma MoreUsedKinds(m: Mem, m': Mem, fs: seq<Frame>, gs: seq<Frame>, slabs: set<nat>)
    requires KindsOk(m, fs, slabs) && |fs| == |gs| && m.used <= m'.used
    requires forall p :: 0 <= p < |fs| ==> gs[p].kind == fs[p].kind
    ensures KindsOk(m', gs, slabs)
  {
    forall p | 0 <= p < |gs| && gs[p].kind == LargeKind ensures HeadUsed(m'.used, p) {
      var c :| c in m.used && c.head == p;
      assert c in m'.used;
    }
  }

  lemma WriteLive(rs: seq<Region>, slabs: set<nat>, hdr: seq<Header>, chunk: map<nat, nat>, fls: seq<seq<nat>>,
                  lists: seq<seq<nat>>, p: nat, x: nat, words: map<nat, nat>)
    requires Chained(rs) && AddressesOk(rs) && SlabsOk(rs, slabs, hdr, chunk, fls, lists, {}) && p in slabs
    requires |hdr| == |fls| == Total(rs) && LiveIn(rs, hdr, fls, p, x)
    requires forall y :: y in words ==> x <= y && y + WORD <= x + ClassSize(hdr[p].cls)
    ensures SlabsOk(rs, slabs, hdr, chunk + words, fls, lists, {})
  {
    hide Placed, AddressOf, IsObject, Capacity;
    SlabFacts(rs, slabs, hdr, chunk, fls, lists, {}, p);
    AddressRegion(rs, p, RegionAt(rs, p));
    var b, c := AddressOf(rs, p), hdr[p].cls;
    ObjectPlace(b, c, x, x);
    forall y | y in words ensures y - y % PAGE_SIZE == b { PageOf(b, y); }
    OthersKeep(rs, slabs, hdr, hdr, chunk, chunk + words, fls, fls, p);
    assert SlabOk(rs, hdr, chunk, fls, p);
    forall i | 0 <= i < |fls[p]| ensures fls[p][i] !in words {
      ObjectPlace(b, c, x, fls[p][i]);
    }
  }

  lemma WriteForeign(rs: seq<Region>, slabs: set<nat>, hdr: seq<Header>, hdr': seq<Header>, chunk: map<nat, nat>, chunk': map<nat, nat>,
                     fls: seq<seq<nat>>, lists: seq<seq<nat>>, p: nat)
    requires Chained(rs) && AddressesOk(rs) && SlabsOk(rs, slabs, hdr, chunk, fls, lists, {}) && p !in slabs && p < Total(rs)
    requires OthersSame(hdr, hdr', fls, fls, p) && OutsideSame(rs, chunk, chunk', p)
    ensures SlabsOk(rs, slabs, hdr', chunk', fls, lists, {})
    ensures |hdr'| == Total(rs) && forall x :: LiveObject(rs, slabs, hdr', fls, x) <==> LiveObject(rs, slabs, hdr, fls, x)
  {
    hide SlabOk, OutsideSame, AddressOf, IsObject, StateOk;
    OthersKeep(rs, slabs, hdr, hdr', chunk, chunk', fls, fls, p);
    hide Placed;
    PlacedKept(slabs, hdr, hdr', lists, p);
    forall x, q | q in slabs ensures LiveIn(rs, hdr', fls, q, x) <==> LiveIn(rs, hdr, fls, q, x) { assert q != p; }
  }

  lemma PlacedKept(slabs: set<nat>, hdr: seq<Header>, hdr': seq<Header>, lists: seq<seq<nat>>, p: nat)
    requires Placed(slabs, hdr, lists, {}) && p !in slabs && |hdr'| == |hdr|
    requires forall q :: 0 <= q < |hdr| && q != p ==> hdr'[q] == hdr[q]
    ensures Placed(slabs, hdr', lists, {})
  {
  }

  // ----- live allocations do not overlap -----

  /** A live allocation: a slot of a slab page, or a tagged block. */
  datatype Allocation = Slot(page: nat, addr: nat) | Whole(block: Block)

  ghost predicate IsAllocation(rs: seq<Region>, m: Mem, fs: seq<Frame>, slabs: set<nat>, hdr: seq<Header>, fls: seq<seq<nat>>, al: Allocation)
    requires Chained(rs) && |fs| == |hdr| == |fls| == Total(rs)
  {
    match al
    case Slot(p, x) => p in slabs && LiveIn(rs, hdr, fls, p, x)
    case Whole(b) => b in m.used && b.head < |fs| && fs[b.head].kind == LargeKind
  }

  /** Byte `a` belongs to the allocation. */
  ghost predicate Owns(rs: seq<Region>, hdr: seq<Header>, al: Allocation, a: nat)
    requires Chained(rs) && |hdr| == Total(rs)
  {
    match al
    case Slot(p, x) => p < |hdr| && hdr[p].cls < CLASSES && x <= a < x + ClassSize(hdr[p].cls)
    case Whole(b) => b.head < Total(rs) && AddressOf(rs, b.head) <= a < AddressOf(rs, b.head) + Pow2(b.order) * PAGE_SIZE
  }

  /** Blocks are contiguous: every byte of one lies in one of its pages. */
  lemma BlockByte(rs: seq<Region>, b: Block, a: nat) returns (p: nat)
    requires Chained(rs) && AddressesOk(rs) && Fits(rs, b)
    requires AddressOf(rs, b.head) <= a < AddressOf(rs, b.head) + Pow2(b.order) * PAGE_SIZE
    ensures In(b, p) && p < Total(rs) && AddressOf(rs, p) == a - a % PAGE_SIZE
  {
    hide AddressOf, AddressesOk, Chained, Lo, Hi, Pow2;
    var base := AddressOf(rs, b.head);
    var i := (a - base) / PAGE_SIZE;
    p := b.head + i;
    AddressAligned(rs, b.head);
    PageNumber(base, a, Pow2(b.order));
    NextAddress(rs, b.head, i);
  }

  lemma PageNumber(base: nat, a: nat, n: nat)
    requires base % PAGE_SIZE == 0 && base <= a < base + n * PAGE_SIZE
    ensures var i := (a - base) / PAGE_SIZE; i < n && a - a % PAGE_SIZE == base + i * PAGE_SIZE
  {
  }

  lemma AddressAligned(rs: seq<Region>, p: nat)
    requires Chained(rs) && AddressesOk(rs) && p < Total(rs)
    ensures AddressOf(rs, p) % PAGE_SIZE == 0
  {
    AddressRegion(rs, p, RegionAt(rs, p));
  }

  /** Pages of one region have consecutive addresses. */
  lemma NextAddress(rs: seq<Region>, h: nat, i: nat)
    requires Chained(rs) && h < Total(rs) && Lo(rs, h) <= h + i < Hi(rs, h)
    ensures h + i < Total(rs) && AddressOf(rs, h + i) == AddressOf(rs, h) + i * PAGE_SIZE
  {
    RegionAtUnique(rs, h + i, RegionAt(rs, h));
  }

  lemma PageOf(base: nat, a: nat)
    requires base % PAGE_SIZE == 0 && base <= a < base + PAGE_SIZE
    ensures a - a % PAGE_SIZE == base
  {
  }

  lemma UsedFits(rs: seq<Region>, usable: set<nat>, m: Mem, b: Block)
    requires Chained(rs) && MemOk(rs, usable, m) && b in m.used
    ensures Fits(rs, b)
  {
  }

  /** The page of a byte, whichever allocation it belongs to. */
  lemma OwnedPage(rs: seq<Region>, usable: set<nat>, m: Mem, fs: seq<Frame>, slabs: set<nat>, hdr: seq<Header>, chunk: map<nat, nat>,
                  fls: seq<seq<nat>>, lists: seq<seq<nat>>, al: Allocation, a: nat) returns (p: nat)
    requires Chained(rs) && AddressesOk(rs) && |fs| == |hdr| == |fls| == Total(rs) && MemOk(rs, usable, m)
    requires SlabsOk(rs, slabs, hdr, chunk, fls, lists, {})
    requires IsAllocation(rs, m, fs, slabs, hdr, fls, al) && Owns(rs, hdr, al, a)
    ensures p < Total(rs) && AddressOf(rs, p) == a - a % PAGE_SIZE
    ensures al.Slot? ==> p == al.page && a >= AddressOf(rs, p) + HEADER_BYTES
    ensures al.Whole? ==> In(al.block, p)
  {
    hide SlabsOk, MemOk, AddressOf, IsObject, Capacity, Fits, Pow2;
    match al
    case Slot(q, x) =>
      p := q;
      AddressRegion(rs, p, RegionAt(rs, p));
      ObjectPlace(AddressOf(rs, p), hdr[p].cls, x, x);
      PageOf(AddressOf(rs, p), a);
    case Whole(b) =>
      UsedFits(rs, usable, m, b);
      p := BlockByte(rs, b, a);
  }

  /** A byte belongs to at most one live allocation. */
  lemma OneOwner(rs: seq<Region>, usable: set<nat>, m: Mem, fs: seq<Frame>, slabs: set<nat>, hdr: seq<Header>, chunk: map<nat, nat>,
                 fls: seq<seq<nat>>, lists: seq<seq<nat>>, al: Allocation, bl: Allocation, a: nat)
    requires Chained(rs) && AddressesOk(rs) && |fs| == |hdr| == |fls| == Total(rs) && MemOk(rs, usable, m)
    requires SlabsOk(rs, slabs, hdr, chunk, fls, lists, {}) && KindsOk(m, fs, slabs)
    requires IsAllocation(rs, m, fs, slabs, hdr, fls, al) && Owns(rs, hdr, al, a)
    requires IsAllocation(rs, m, fs, slabs, hdr, fls, bl) && Owns(rs, hdr, bl, a)
    ensures al == bl
  {
    hide AddressOf, SlabsOk, MemOk, IsObject, Fits;
    var p := OwnedPage(rs, usable, m, fs, slabs, hdr, chunk, fls, lists, al, a);
    var q := OwnedPage(rs, usable, m, fs, slabs, hdr, chunk, fls, lists, bl, a);
    AddressInjective(rs, p, q);
    if al.Slot? && bl.Slot? {
      AddressRegion(rs, p, RegionAt(rs, p));
      ObjectPlace(AddressOf(rs, p), hdr[p].cls, al.addr, bl.addr);
    } else {
      var b := if al.Whole? then al.block else Block(p, 0);
      var c := if bl.Whole? then bl.block else Block(q, 0);
      UsedMeetOnce(rs, usable, m, b, c, p);
    }
  }

  lemma UsedMeetOnce(rs: seq<Region>, usable: set<nat>, m: Mem, b: Block, c: Block, p: nat)
    requires Chained(rs) && MemOk(rs, usable, m) && b in m.used && c in m.used && In(b, p) && In(c, p)
    ensures b == c
  {
    assert b in m.free + m.used && c in m.free + m.used;
  }

  // ----- what the heap holds -----

  /** The blocks of large allocations. */
  ghost function LargeBlocks(m: Mem, fs: seq<Frame>): set<Block> {
    set b | b in m.used && b.head < |fs| && fs[b.head].kind == LargeKind
  }

  /** Every allocated block is a slab's page, a large allocation, or somebody else's, and only one of these. */
  lemma HeapParts(rs: seq<Region>, usable: set<nat>, m: Mem, lists: seq<seq<nat>>, fs: seq<Frame>, slabs: set<nat>)
    requires Chained(rs) && |fs| == Total(rs) && Represents(rs, usable, m, lists, fs, {}) && KindsOk(m, fs, slabs)
    ensures m.used == SlabBlocks(slabs) + LargeBlocks(m, fs) + Untagged(m, fs)
    ensures SlabBlocks(slabs) !! LargeBlocks(m, fs) && (SlabBlocks(slabs) + LargeBlocks(m, fs)) !! Untagged(m, fs)
  {
    forall b | b in m.used ensures b in SlabBlocks(slabs) + LargeBlocks(m, fs) + Untagged(m, fs) {
      HeadUsable(rs, usable, m, lists, fs, b);
      if fs[b.head].kind == SlabKind {
        OneBlock(rs, usable, m, lists, fs, b, Block(b.head, 0));
      }
    }
  }

  lemma HeadUsable(rs: seq<Region>, usable: set<nat>, m: Mem, lists: seq<seq<nat>>, fs: seq<Frame>, b: Block)
    requires Chained(rs) && Represents(rs, usable, m, lists, fs, {}) && b in m.used
    ensures b.head < Total(rs)
  {
  }

  lemma NoLargeBlocks(rs: seq<Region>, m: Mem, fs: seq<Frame>)
    requires Chained(rs) && |fs| == Total(rs) && forall x :: !LargeIn(rs, fs, x)
    ensures LargeBlocks(m, fs) == {}
  {
    forall b | b in m.used && b.head < |fs| ensures fs[b.head].kind != LargeKind {
      assert !LargeIn(rs, fs, AddressOf(rs, b.head));
    }
  }

  lemma {:induction false} SlabBlocksSize(slabs: set<nat>)
    ensures |SlabBlocks(slabs)| == |slabs|
  {
    if p :| p in slabs {
      SlabBlocksSize(slabs - {p});
      assert SlabBlocks(slabs) == SlabBlocks(slabs - {p}) + {Block(p, 0)};
    } else {
      assert SlabBlocks(slabs) == {};
    }
  }

  ghost function Position(f: seq<nat>, x: nat): (i: nat)
    requires x in f
    ensures i < |f| && f[i] == x
  {
    var i :| 0 <= i < |f| && f[i] == x;
    i
  }

  /** A slab that counts an object in use has one: not all its slots are free. */
  lemma SomeLive(b: nat, h: Header, f: seq<nat>, chunk: map<nat, nat>) returns (x: nat)
    requires ObjectsOk(b, h, f, chunk) && h.inuse > 0 && b % PAGE_SIZE == 0
    ensures IsObject(b, h.cls, x) && x !in f
  {
    var c, start := h.cls, b + FirstOffset(h.cls);
    hide FirstOffset, Capacity, IsObject, ObjectChain, NoDup;
    forall i | 0 <= i < Capacity(c) ensures IsObject(b, c, SlotAddress(start, c, i)) {
      NextSlot(b, c, start, i);
    }
    if i :| 0 <= i < Capacity(c) && SlotAddress(start, c, i) !in f {
      x := SlotAddress(start, c, i);
    } else {
      AllSlotsFree(f, start, c);
      assert false;
    }
  }

  lemma AllSlotsFree(f: seq<nat>, start: nat, c: nat)
    requires c < CLASSES && forall i :: 0 <= i < Capacity(c) ==> SlotAddress(start, c, i) in f
    ensures Capacity(c) <= |f|
  {
    var g := seq(Capacity(c), i requires 0 <= i < Capacity(c) => Position(f, SlotAddress(start, c, i)));
    forall i, j | 0 <= i < j < |g| ensures g[i] != g[j] {
      MulMonotone(i + 1, j, ClassSize(c));
      assert SlotAddress(start, c, i) < SlotAddress(start, c, j);
    }
    DistinctBelow(g, |f|);
  }

  /** Slabs without live objects: one per class at most. */
  lemma IdleSlabs(rs: seq<Region>, slabs: set<nat>, hdr: seq<Header>, chunk: map<nat, nat>, fls: seq<seq<nat>>, lists: seq<seq<nat>>,
                  p: nat, q: nat)
    requires Chained(rs) && AddressesOk(rs) && SlabsOk(rs, slabs, hdr, chunk, fls, lists, {})
    requires p in slabs && q in slabs && (forall x :: !LiveIn(rs, hdr, fls, p, x) && !LiveIn(rs, hdr, fls, q, x))
    ensures p < |hdr| && q < |hdr| && hdr[p].cls < CLASSES && (hdr[p].cls == hdr[q].cls ==> p == q)
  {
    IdleEmpty(rs, slabs, hdr, chunk, fls, lists, p);
    IdleEmpty(rs, slabs, hdr, chunk, fls, lists, q);
    hide SlabOk;
    if hdr[p].cls == hdr[q].cls {
      var l := lists[ListId(hdr[p].cls, Empty)];
      assert p in l && q in l && |l| <= 1;
    }
  }

  lemma IdleEmpty(rs: seq<Region>, slabs: set<nat>, hdr: seq<Header>, chunk: map<nat, nat>, fls: seq<seq<nat>>, lists: seq<seq<nat>>, p: nat)
    requires Chained(rs) && AddressesOk(rs) && SlabsOk(rs, slabs, hdr, chunk, fls, lists, {})
    requires p in slabs && forall x :: !LiveIn(rs, hdr, fls, p, x)
    ensures p < |hdr| && hdr[p].cls < CLASSES && hdr[p].state == Empty && p in lists[ListId(hdr[p].cls, Empty)]
  {
    SlabFacts(rs, slabs, hdr, chunk, fls, lists, {}, p);
    AddressRegion(rs, p, RegionAt(rs, p));
    hide ObjectsOk, IsObject, AddressOf, Capacity;
    BusyLive(rs, hdr, chunk, fls, p);
    SlabClass(rs, hdr, chunk, fls, p);
  }

  lemma BusyLive(rs: seq<Region>, hdr: seq<Header>, chunk: map<nat, nat>, fls: seq<seq<nat>>, p: nat)
    requires Chained(rs) && |hdr| == |fls| == Total(rs) && SlabOk(rs, hdr, chunk, fls, p) && AddressOf(rs, p) % PAGE_SIZE == 0
    ensures hdr[p].inuse > 0 ==> exists x :: LiveIn(rs, hdr, fls, p, x)
  {
    hide IsObject, AddressOf, Capacity, ObjectChain;
    if hdr[p].inuse > 0 {
      var x := SomeLive(AddressOf(rs, p), hdr[p], fls[p], chunk);
      assert LiveIn(rs, hdr, fls, p, x);
    }
  }

  /** At most one slab per class means at most as many slabs as classes. */
  lemma {:induction false} OnePerClass(slabs: set<nat>, hdr: seq<Header>, n: nat)
    requires forall p :: p in slabs ==> p < |hdr| && hdr[p].cls < n
    requires forall p, q :: p in slabs && q in slabs && hdr[p].cls == hdr[q].cls ==> p == q
    ensures |slabs| <= n
    decreases n
  {
    if p :| p in slabs && hdr[p].cls == n - 1 {
      OnePerClass(slabs - {p}, hdr, n - 1);
    } else if n > 0 {
      OnePerClass(slabs, hdr, n - 1);
    }
  }
}
