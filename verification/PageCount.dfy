/** Counting pages: what the free lists add up to, and that no page is lost. */
module PageCount {
  import opened Bits
  import opened Blocks
  import opened Links
  import opened Frames

  ghost function HeldPages(total: nat, bs: set<Block>): set<nat> {
    set p: nat | p < total && Held(bs, p)
  }

  /** Pages on the lists below order `k`, as the code adds them up. */
  ghost function ListedPages(lists: seq<seq<nat>>, k: nat): nat
    requires k <= |lists|
  {
    if k == 0 then 0 else ListedPages(lists, k - 1) + |lists[k - 1]| * Pow2(k - 1)
  }

  ghost function Interval(a: nat, n: nat): (s: set<nat>)
    ensures |s| == n
    ensures forall p :: p in s <==> a <= p < a + n
  {
    if n == 0 then {} else Interval(a, n - 1) + {a + n - 1}
  }

  ghost function BlockPages(b: Block): set<nat> {
    Interval(b.head, Pow2(b.order))
  }

  /** The pages of the blocks on one list. */
  ghost function Cover(s: seq<nat>, o: nat): set<nat> {
    if s == [] then {} else BlockPages(Block(s[0], o)) + Cover(s[1..], o)
  }

  ghost function CoverAll(lists: seq<seq<nat>>, k: nat): set<nat>
    requires k <= |lists|
  {
    if k == 0 then {} else CoverAll(lists, k - 1) + Cover(lists[k - 1], k - 1)
  }

  lemma {:induction false} CoverMembers(s: seq<nat>, o: nat, p: nat)
    ensures p in Cover(s, o) <==> exists i :: 0 <= i < |s| && In(Block(s[i], o), p)
  {
    if s != [] {
      CoverMembers(s[1..], o, p);
      assert p in BlockPages(Block(s[0], o)) <==> In(Block(s[0], o), p);
      if p in Cover(s[1..], o) {
        var i :| 0 <= i < |s[1..]| && In(Block(s[1..][i], o), p);
        assert s[i + 1] == s[1..][i];
      }
      if i :| 0 <= i < |s| && In(Block(s[i], o), p) {
        assert i > 0 ==> s[1..][i - 1] == s[i];
      }
    }
  }

  /** Disjoint blocks of one order. */
  ghost predicate SeparateHeads(s: seq<nat>, o: nat) {
    forall i, j :: 0 <= i < j < |s| ==> Apart(Block(s[i], o), Block(s[j], o))
  }

  lemma {:induction false} CoverCount(s: seq<nat>, o: nat)
    requires SeparateHeads(s, o)
    ensures |Cover(s, o)| == |s| * Pow2(o)
  {
    if s != [] {
      CoverCount(s[1..], o);
      var b := Block(s[0], o);
      forall p | p in BlockPages(b) ensures p !in Cover(s[1..], o) {
        CoverMembers(s[1..], o, p);
        forall i | 0 <= i < |s[1..]| ensures !In(Block(s[1..][i], o), p) { assert s[1..][i] == s[i + 1]; }
      }
      assert |s| * Pow2(o) == Pow2(o) + (|s| - 1) * Pow2(o);
    }
  }

  lemma {:induction false} CoverAllMembers(lists: seq<seq<nat>>, k: nat, p: nat)
    requires k <= |lists|
    ensures p in CoverAll(lists, k) <==> exists o :: 0 <= o < k && p in Cover(lists[o], o)
  {
    hide Cover;
    if k > 0 { CoverAllMembers(lists, k - 1, p); }
  }

  lemma CoveredOnce(free: set<Block>, lists: seq<seq<nat>>, o: nat, k: nat, p: nat)
    requires ListsMatch(free, lists) && Separate(free) && o < |lists| && k < |lists|
    requires p in Cover(lists[o], o) && p in Cover(lists[k], k)
    ensures o == k
  {
    hide Cover, Pow2;
    CoverMembers(lists[o], o, p);
    CoverMembers(lists[k], k, p);
    var i :| 0 <= i < |lists[o]| && In(Block(lists[o][i], o), p);
    var j :| 0 <= j < |lists[k]| && In(Block(lists[k][j], k), p);
    assert lists[o][i] in lists[o] && lists[k][j] in lists[k];
  }

  lemma ListSeparate(free: set<Block>, lists: seq<seq<nat>>, k: nat)
    requires ListsMatch(free, lists) && Separate(free) && Distinct(lists) && k < |lists|
    ensures SeparateHeads(lists[k], k)
  {
    var s := lists[k];
    assert NoDup(s);
    forall i, j | 0 <= i < j < |s| ensures Apart(Block(s[i], k), Block(s[j], k)) {
      assert s[i] in s && s[j] in s && s[i] != s[j];
    }
  }

  lemma {:induction false} CoverAllCount(free: set<Block>, lists: seq<seq<nat>>, k: nat)
    requires ListsMatch(free, lists) && Separate(free) && Distinct(lists) && k <= |lists|
    ensures |CoverAll(lists, k)| == ListedPages(lists, k)
  {
    hide ListsMatch, Separate, Distinct, SeparateHeads, Cover;
    if k > 0 {
      CoverAllCount(free, lists, k - 1);
      ListSeparate(free, lists, k - 1);
      CoverCount(lists[k - 1], k - 1);
      var c, d := Cover(lists[k - 1], k - 1), CoverAll(lists, k - 1);
      forall p | p in c ensures p !in d {
        if p in d {
          CoverAllMembers(lists, k - 1, p);
          var o :| 0 <= o < k - 1 && p in Cover(lists[o], o);
          CoveredOnce(free, lists, o, k - 1, p);
        }
      }
    }
  }

  lemma CoverAllIsHeld(free: set<Block>, lists: seq<seq<nat>>, p: nat)
    requires ListsMatch(free, lists)
    ensures p in CoverAll(lists, |lists|) <==> Held(free, p)
  {
    CoverAllMembers(lists, |lists|, p);
    if p in CoverAll(lists, |lists|) {
      var o :| 0 <= o < |lists| && p in Cover(lists[o], o);
      CoverMembers(lists[o], o, p);
      var i :| 0 <= i < |lists[o]| && In(Block(lists[o][i], o), p);
      assert lists[o][i] in lists[o];
    }
    if b :| b in free && In(b, p) {
      var i :| 0 <= i < |lists[b.order]| && lists[b.order][i] == b.head;
      CoverMembers(lists[b.order], b.order, p);
    }
  }

  /** The sum over the lists is the number of free pages. */
  lemma ListedPagesCount(rs: seq<Region>, usable: set<nat>, m: Mem, lists: seq<seq<nat>>, fs: seq<Frame>)
    requires Chained(rs) && Represents(rs, usable, m, lists, fs, {}) && Distinct(lists)
    ensures ListedPages(lists, MAX_ORDER + 1) == |HeldPages(Total(rs), m.free)|
  {
    assert Separate(m.free) by {
      forall b, c | b in m.free && c in m.free && b != c ensures Apart(b, c) {
        assert b in m.free + m.used && c in m.free + m.used;
      }
    }
    CoverAllCount(m.free, lists, |lists|);
    var all, held := CoverAll(lists, |lists|), HeldPages(Total(rs), m.free);
    forall p: nat ensures p in all <==> p in held {
      CoverAllIsHeld(m.free, lists, p);
      if b :| b in m.free && In(b, p) { SameSpan(rs, b.head, p); }
    }
    assert all == held;
  }

  /** Free, used and reserved pages add up to the managed ones. */
  lemma PagesConserved(rs: seq<Region>, usable: set<nat>, m: Mem)
    requires Chained(rs) && MemOk(rs, usable, m)
    ensures HeldPages(Total(rs), m.free) !! HeldPages(Total(rs), m.used)
    ensures HeldPages(Total(rs), m.free) + HeldPages(Total(rs), m.used) == usable
    ensures usable <= Interval(0, Total(rs))
    ensures |HeldPages(Total(rs), m.free)| + |HeldPages(Total(rs), m.used)| + |Interval(0, Total(rs)) - usable| == Total(rs)
  {
    var free, used, all := HeldPages(Total(rs), m.free), HeldPages(Total(rs), m.used), Interval(0, Total(rs));
    forall p: nat ensures (p in free <==> p in usable && p !in used) && (p in usable ==> p < Total(rs)) {
      FreeIsNotUsed(rs, usable, m, p);
      if b :| (b in m.free || b in m.used) && In(b, p) { SameSpan(rs, b.head, p); }
    }
    assert free + used == usable;
    assert all == usable + (all - usable);
  }
}
