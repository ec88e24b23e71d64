/** Greedy carving of a free run into blocks yields exactly the maximal legal blocks. */
module Carving {
  import opened Bits
  import opened Blocks
  import opened Links
  import opened Frames

  ghost predicate Inside(b: Block, pages: set<nat>) {
    forall p: nat :: In(b, p) ==> p in pages
  }

  ghost function PagesOf(b: Block): set<nat> {
    set p: nat | b.head <= p < End(b) && In(b, p)
  }

  /** `b` is legal, lies in `pages`, and no larger legal block around it does. */
  ghost predicate MaximalIn(rs: seq<Region>, pages: set<nat>, b: Block)
    requires Chained(rs)
  {
    && Fits(rs, b) && Inside(b, pages)
    && (forall c :: Fits(rs, c) && Within(b, c) && Inside(c, pages) ==> c == b)
  }

  /** No legal block of `pages` reaches across page `at`. */
  ghost predicate CleanCut(rs: seq<Region>, pages: set<nat>, at: nat)
    requires Chained(rs)
  {
    forall c :: Fits(rs, c) && Inside(c, pages) ==> End(c) <= at || at <= c.head
  }

  /** `o` is the largest order that is aligned at `s` and fits in `n` pages. */
  ghost predicate LargestOrder(s: nat, n: nat, o: nat) {
    && o <= MAX_ORDER && Aligned(s, o) && Pow2(o) <= n
    && (forall k :: o < k <= MAX_ORDER ==> !(Aligned(s, k) && Pow2(k) <= n))
  }

  /** The region's pages from `at` on are in `pages` up to `end`, and `end` is not. */
  ghost predicate RunFrom(rs: seq<Region>, pages: set<nat>, r: nat, at: nat, end: nat)
  {
    && r < |rs| && rs[r].first <= at < end <= rs[r].first + rs[r].pages
    && (forall p: nat :: at <= p < end ==> p in pages)
    && (end < rs[r].first + rs[r].pages ==> end !in pages)
  }

  lemma NextMaximal(rs: seq<Region>, pages: set<nat>, r: nat, at: nat, end: nat, o: nat)
    requires Chained(rs) && RunFrom(rs, pages, r, at, end) && CleanCut(rs, pages, at)
    requires LargestOrder(at - rs[r].first, end - at, o)
    ensures MaximalIn(rs, pages, Block(at, o))
  {
    var b := Block(at, o);
    RegionAtUnique(rs, at, r);
    forall c | Fits(rs, c) && Within(b, c) && Inside(c, pages) ensures c == b {
      NestOrApartAny(rs, b, c);
      assert c.head == at;
      assert end !in pages ==> !In(c, end);
    }
  }

  lemma NestOrApartAny(rs: seq<Region>, b: Block, c: Block)
    requires Chained(rs) && Fits(rs, b) && Fits(rs, c) && Within(b, c)
    ensures b.order <= c.order && Lo(rs, b.head) == Lo(rs, c.head) && Hi(rs, b.head) == Hi(rs, c.head)
    ensures b.order == c.order ==> b == c
  {
    if c.order < b.order { Pow2Monotone(c.order, b.order); }
    NestOrApart(rs, b, c);
  }

  lemma NextClean(rs: seq<Region>, pages: set<nat>, b: Block)
    requires Chained(rs) && MaximalIn(rs, pages, b)
    ensures CleanCut(rs, pages, End(b))
  {
    forall c | Fits(rs, c) && Inside(c, pages) ensures End(c) <= End(b) || End(b) <= c.head {
      if c.head < End(b) < End(c) {
        if c.order <= b.order {
          NestOrApart(rs, c, b);
        } else {
          NestOrApart(rs, b, c);
        }
      }
    }
  }

  /** No block crosses a page that is not available, nor the start of a region. */
  lemma CutAtRunStart(rs: seq<Region>, pages: set<nat>, r: nat, at: nat)
    requires Chained(rs) && r < |rs| && rs[r].first <= at < rs[r].first + rs[r].pages
    requires at == rs[r].first || at - 1 !in pages
    ensures CleanCut(rs, pages, at)
  {
    forall c | Fits(rs, c) && Inside(c, pages) ensures End(c) <= at || at <= c.head {
      if c.head < at < End(c) {
        SameSpan(rs, c.head, at);
        RegionAtUnique(rs, at, r);
        assert In(c, at - 1);
      }
    }
  }

  // ----- adding a carved block -----

  ghost predicate AllMaximal(rs: seq<Region>, pages: set<nat>, free: set<Block>)
    requires Chained(rs)
  {
    forall b :: b in free ==> MaximalIn(rs, pages, b)
  }

  lemma MaximalNotMergeable(rs: seq<Region>, pages: set<nat>, free: set<Block>, b: Block)
    requires Chained(rs) && AllMaximal(rs, pages, free) && MaximalIn(rs, pages, b)
    ensures !Mergeable(rs, free, b)
  {
    if Mergeable(rs, free, b) {
      SiblingFits(rs, b);
      var q, s := Parent(rs, b), Sibling(rs, b);
      assert MaximalIn(rs, pages, s);
      assert forall p: nat :: In(q, p) <==> In(b, p) || In(s, p);
    }
  }

  lemma AddTiles(rs: seq<Region>, usable: set<nat>, m: Mem, b: Block)
    requires Chained(rs) && Tiling(rs, usable, m) && Fits(rs, b)
    requires forall p: nat :: In(b, p) ==> p !in usable
    ensures Tiling(rs, usable + PagesOf(b), Mem(m.free + {b}, m.used))
  {
    var n := Mem(m.free + {b}, m.used);
    forall c | c in m.free || c in m.used ensures Apart(b, c) && c != b {
      HandUsable(rs, usable, m, c, b.head);
      HandUsable(rs, usable, m, c, c.head);
      assert In(b, b.head) && In(c, c.head);
    }
    forall p: nat ensures p in usable + PagesOf(b) <==> Held(n.free, p) || Held(n.used, p) {
      assert p in PagesOf(b) <==> In(b, p);
      assert b in n.free;
      if c :| c in m.free && In(c, p) { assert c in n.free; }
    }
  }

  lemma AddOk(rs: seq<Region>, pages: set<nat>, usable: set<nat>, m: Mem, b: Block)
    requires Chained(rs) && MemOk(rs, usable, m) && AllMaximal(rs, pages, m.free) && MaximalIn(rs, pages, b)
    requires forall p: nat :: In(b, p) ==> p !in usable
    ensures MemOk(rs, usable + PagesOf(b), Mem(m.free + {b}, m.used))
    ensures AllMaximal(rs, pages, m.free + {b})
  {
    AddTiles(rs, usable, m, b);
    MaximalNotMergeable(rs, pages, m.free, b);
    hide MaximalIn;
    AddKeepsUnmerged(rs, m.free, b);
  }

  /** The carved block is tagged free and linked in front of its list. */
  lemma CarveRepresents(rs: seq<Region>, pages: set<nat>, usable: set<nat>, m: Mem, lists: seq<seq<nat>>,
                        fs: seq<Frame>, gs: seq<Frame>, b: Block)
    requires Chained(rs) && Represents(rs, usable, m, lists, fs, {}) && AllMaximal(rs, pages, m.free)
    requires MaximalIn(rs, pages, b) && (forall p: nat :: In(b, p) ==> p !in usable)
    requires SameStates(fs, gs, b) && FreeTagged(gs, b) && b.order < |lists|
    ensures Represents(rs, usable + PagesOf(b), Mem(m.free + {b}, m.used),
                       lists[b.order := [b.head] + lists[b.order]], gs, {})
    ensures AllMaximal(rs, pages, m.free + {b})
  {
    CarveTags(rs, usable, m, fs, gs, b);
    hide TagsOk, SameStates, FreeTagged;
    AddOk(rs, pages, usable, m, b);
    hide MaximalIn, Tiling;
    ListsPush(m.free, lists, b);
  }

  lemma CarveTags(rs: seq<Region>, usable: set<nat>, m: Mem, fs: seq<Frame>, gs: seq<Frame>, b: Block)
    requires Chained(rs) && Tiling(rs, usable, m) && TagsOk(usable, m, fs, {}) && Fits(rs, b)
    requires forall p: nat :: In(b, p) ==> p !in usable
    requires SameStates(fs, gs, b) && FreeTagged(gs, b)
    ensures TagsOk(usable + PagesOf(b), Mem(m.free + {b}, m.used), gs, {})
  {
    forall c | c in m.free || c in m.used ensures Apart(b, c) {
      HandUsable(rs, usable, m, c, b.head);
      HandUsable(rs, usable, m, c, c.head);
      assert In(b, b.head) && In(c, c.head);
    }
    forall c | c in m.free ensures FreeTagged(gs, c) { TaggedOutside(fs, gs, b, c); }
    forall c | c in m.used ensures UsedTagged(gs, c) { TaggedOutside(fs, gs, b, c); }
  }

  lemma FreshNotListed(rs: seq<Region>, usable: set<nat>, m: Mem, lists: seq<seq<nat>>, fs: seq<Frame>, p: nat)
    requires Chained(rs) && Represents(rs, usable, m, lists, fs, {}) && p !in usable
    ensures !OnList(lists, p)
  {
    forall b | b in m.free ensures b.head != p {
      HandUsable(rs, usable, m, b, b.head);
      assert In(b, b.head);
    }
  }
}
