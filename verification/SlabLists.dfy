/**
 The byte allocator's data: size classes, slab headers on three lists per class, and the chain of
 free objects inside each slab. Values only; the allocator's methods update them.
 */
module SlabLists {
  import opened Bits
  import opened Blocks
  import opened Links
  import opened PageAllocator

  const SLAB_MAGIC: nat := 0x534C_4142
  const HEADER_BYTES: nat := 48
  const CLASSES: nat := 8

  datatype SlabState = Empty | Partial | Full

  /** Header at the start of a slab page; its list links are kept separately. `cls` is the owning cache. */
  datatype Header = Header(cls: nat, freelist: nat, inuse: nat, capacity: nat, state: SlabState, magic: nat)

  // ----- geometry of one slab page -----

  function ClassSize(c: nat): nat
    requires c < CLASSES
  {
    [16, 32, 64, 128, 256, 512, 1024, 2048][c]
  }

  /** First object: the header rounded up to the object size. */
  function FirstOffset(c: nat): nat
    requires c < CLASSES
  {
    [48, 64, 64, 128, 256, 512, 1024, 2048][c]
  }

  function Capacity(c: nat): nat
    requires c < CLASSES
  {
    [253, 126, 63, 31, 15, 7, 3, 1][c]
  }

  /** `x` is the address of one of the object slots of the slab at `b`. */
  predicate IsObject(b: nat, c: nat, x: nat)
    requires c < CLASSES
  {
    && b + FirstOffset(c) <= x < b + FirstOffset(c) + Capacity(c) * ClassSize(c)
    && (x - (b + FirstOffset(c))) % ClassSize(c) == 0
  }

  function SlotOf(b: nat, c: nat, x: nat): nat
    requires c < CLASSES && IsObject(b, c, x)
  {
    (x - (b + FirstOffset(c))) / ClassSize(c)
  }

  lemma SlotFacts(b: nat, c: nat, x: nat)
    requires c < CLASSES && IsObject(b, c, x)
    ensures x == b + FirstOffset(c) + SlotOf(b, c, x) * ClassSize(c) && SlotOf(b, c, x) < Capacity(c)
  {
    MulMonotone(Capacity(c), SlotOf(b, c, x), ClassSize(c));
  }

  /** Slots lie behind the header, inside the page, and apart from each other. */
  lemma ObjectPlace(b: nat, c: nat, x: nat, y: nat)
    requires c < CLASSES && b % PAGE_SIZE == 0 && IsObject(b, c, x) && IsObject(b, c, y)
    ensures b + HEADER_BYTES <= x && x + ClassSize(c) <= b + PAGE_SIZE && x - x % PAGE_SIZE == b
    ensures x == y || x + ClassSize(c) <= y || y + ClassSize(c) <= x
  {
    var z, i, j := ClassSize(c), SlotOf(b, c, x), SlotOf(b, c, y);
    SlotFacts(b, c, x);
    SlotFacts(b, c, y);
    hide SlotOf, IsObject;
    MulMonotone(i + 1, Capacity(c), z);
    MulMonotone(i + 1, j, z);
    MulMonotone(j + 1, i, z);
  }

  lemma ClassSizeIsPow2(c: nat)
    requires c < CLASSES
    ensures ClassSize(c) == Pow2(4 + c)
  {
    assert Pow2(4) == 4 * Pow2(2);
    assert c >= 1 ==> Pow2(5) == 2 * Pow2(4);
    assert c >= 2 ==> Pow2(6) == 2 * Pow2(5);
    assert c >= 3 ==> Pow2(7) == 2 * Pow2(6);
    assert c >= 4 ==> Pow2(8) == 2 * Pow2(7);
    assert c >= 5 ==> Pow2(9) == 2 * Pow2(8);
    assert c >= 6 ==> Pow2(10) == 2 * Pow2(9);
    assert c >= 7 ==> Pow2(11) == 2 * Pow2(10);
  }

  lemma OffsetAligned(base: nat, c: nat)
    requires c < CLASSES && base % PAGE_SIZE == 0
    ensures (base + FirstOffset(c)) % ClassSize(c) == 0
    ensures (PAGE_SIZE - FirstOffset(c)) / ClassSize(c) == Capacity(c)
  {
    var n := base / PAGE_SIZE;
    assert base == 4096 * n;
    var slots := [256, 128, 64, 32, 16, 8, 4, 2][c];
    var skipped := [3, 2, 1, 1, 1, 1, 1, 1][c];
    assert slots * ClassSize(c) == PAGE_SIZE && skipped * ClassSize(c) == FirstOffset(c) && Capacity(c) == slots - skipped;
    hide ClassSize, FirstOffset, Capacity;
    var z := ClassSize(c);
    assert base + FirstOffset(c) == (n * slots + skipped) * z by {
      assert n * (slots * z) == (n * slots) * z;
      assert (n * slots + skipped) * z == (n * slots) * z + skipped * z;
    }
    ModUnique(base + FirstOffset(c), z, n * slots + skipped, 0);
    assert PAGE_SIZE - FirstOffset(c) == (slots - skipped) * z;
    ModUnique(PAGE_SIZE - FirstOffset(c), z, slots - skipped, 0);
  }

  lemma NoMultipleBetween(x: nat, y: nat, z: nat)
    requires z > 0 && x % z == 0 && y % z == 0 && x <= y < x + z
    ensures x == y
  {
    var i, j := x / z, y / z;
    assert x == i * z && y == j * z;
    MulMonotone(i + 1, j, z);
  }

  /** The code's layout arithmetic: skip the header, align to the object size, divide what is left. */
  lemma Layout(base: nat, c: nat)
    requires c < CLASSES && base % PAGE_SIZE == 0 && base + PAGE_SIZE < U64
    ensures AlignUp(base + HEADER_BYTES, ClassSize(c)) == base + FirstOffset(c)
    ensures (base + PAGE_SIZE - (base + FirstOffset(c))) / ClassSize(c) == Capacity(c)
  {
    ClassSizeIsPow2(c);
    hide AlignUp, Pow2;
    AlignUpLeast(base + HEADER_BYTES, 4 + c);
    OffsetAligned(base, c);
    NoMultipleBetween(AlignUp(base + HEADER_BYTES, ClassSize(c)), base + FirstOffset(c), ClassSize(c));
    assert base + PAGE_SIZE - (base + FirstOffset(c)) == PAGE_SIZE - FirstOffset(c);
  }

  // ----- chain of free objects -----

  function At(s: seq<nat>, i: int): nat {
    if 0 <= i < |s| then s[i] else 0
  }

  ghost predicate ObjectChain(chunk: map<nat, nat>, head: nat, f: seq<nat>) {
    && head == At(f, 0)
    && (forall i :: 0 <= i < |f| ==> f[i] in chunk && f[i] != 0)
    && (forall i {:trigger chunk[f[i]]} :: 0 <= i < |f| ==> chunk[f[i]] == At(f, i + 1))
  }

  ghost predicate ObjectsOk(b: nat, h: Header, f: seq<nat>, chunk: map<nat, nat>) {
    && h.cls < CLASSES && h.magic == SLAB_MAGIC && h.capacity == Capacity(h.cls)
    && h.inuse + |f| == h.capacity
    && ObjectChain(chunk, h.freelist, f) && NoDup(f)
    && (forall i :: 0 <= i < |f| ==> IsObject(b, h.cls, f[i]))
  }

  ghost predicate StateOk(h: Header) {
    match h.state
    case Empty => h.inuse == 0
    case Partial => 0 < h.inuse < h.capacity
    case Full => h.inuse == h.capacity
  }

  lemma {:induction false} DistinctBelow(f: seq<nat>, n: nat)
    requires NoDup(f) && forall i :: 0 <= i < |f| ==> f[i] < n
    ensures |f| <= n
    decreases n
  {
    assert f != [] ==> f[0] < n;
    if f != [] {
      if k :| 0 <= k < |f| && f[k] == n - 1 {
        var g := Without(f, k);
        forall i, j | 0 <= i < j < |g| ensures g[i] != g[j] {
          assert f[if i < k then i else i + 1] != f[if j < k then j else j + 1];
        }
        forall i | 0 <= i < |g| ensures g[i] < n - 1 {
          assert f[if i < k then i else i + 1] != f[k];
        }
        DistinctBelow(g, n - 1);
      } else {
        DistinctBelow(f, n - 1);
      }
    }
  }

  /** A slot that is not on the free chain is in use, so the count is not zero. */
  lemma LiveMeansInUse(b: nat, h: Header, f: seq<nat>, chunk: map<nat, nat>, x: nat)
    requires ObjectsOk(b, h, f, chunk) && IsObject(b, h.cls, x) && x !in f
    ensures h.inuse > 0
  {
    var c, t := h.cls, f + [x];
    forall i | 0 <= i < |t| ensures IsObject(b, c, t[i]) {}
    var g := seq(|t|, i requires 0 <= i < |t| => SlotOf(b, c, t[i]));
    forall i | 0 <= i < |g| ensures g[i] < Capacity(c) && t[i] == b + FirstOffset(c) + g[i] * ClassSize(c) {
      SlotFacts(b, c, t[i]);
    }
    forall i, j | 0 <= i < j < |g| ensures g[i] != g[j] {
      assert t[i] != t[j];
    }
    DistinctBelow(g, Capacity(c));
  }

  // ----- the three lists of each class -----

  const LISTS: nat := 24

  function ListId(c: nat, st: SlabState): (k: nat)
    requires c < CLASSES
    ensures k < LISTS
  {
    3 * c + match st case Empty => 0 case Partial => 1 case Full => 2
  }

  lemma ListIdInjective(c: nat, st: SlabState, d: nat, su: SlabState)
    requires c < CLASSES && d < CLASSES && ListId(c, st) == ListId(d, su)
    ensures c == d && st == su
  {
  }

  /** Page `p` is a well-formed slab with free objects `f`. */
  ghost predicate SlabOk(rs: seq<Region>, hdr: seq<Header>, chunk: map<nat, nat>, fls: seq<seq<nat>>, p: nat)
    requires Chained(rs) && |hdr| == |fls| == Total(rs)
  {
    p < Total(rs) && AddressOf(rs, p) > 0 && ObjectsOk(AddressOf(rs, p), hdr[p], fls[p], chunk)
  }

  /** Every slab is on exactly the list its state names, unless it is in `hand`. */
  ghost predicate Placed(slabs: set<nat>, hdr: seq<Header>, lists: seq<seq<nat>>, hand: set<nat>) {
    && |lists| == LISTS
    && (forall p :: p in slabs ==> p < |hdr| && hdr[p].cls < CLASSES)
    && (forall p :: p in slabs && p !in hand ==> StateOk(hdr[p]) && p in lists[ListId(hdr[p].cls, hdr[p].state)])
    && (forall k, p :: 0 <= k < LISTS && p in lists[k] ==> p in slabs && k == ListId(hdr[p].cls, hdr[p].state))
    && (forall c :: 0 <= c < CLASSES ==> |lists[ListId(c, Empty)]| <= 1)
  }

  ghost predicate SlabsOk(rs: seq<Region>, slabs: set<nat>, hdr: seq<Header>, chunk: map<nat, nat>, fls: seq<seq<nat>>,
                          lists: seq<seq<nat>>, hand: set<nat>)
    requires Chained(rs)
  {
    && |hdr| == |fls| == Total(rs)
    && (forall p :: p in slabs ==> SlabOk(rs, hdr, chunk, fls, p))
    && Placed(slabs, hdr, lists, hand)
  }

  // ----- steps -----

  /** Chains differ at most inside page `p`. */
  ghost predicate OutsideSame(rs: seq<Region>, chunk: map<nat, nat>, chunk': map<nat, nat>, p: nat)
    requires Chained(rs) && p < Total(rs)
  {
    forall x :: x in chunk && x - x % PAGE_SIZE != AddressOf(rs, p) ==> x in chunk' && chunk'[x] == chunk[x]
  }

  lemma NothingCarved(rs: seq<Region>, chunk: map<nat, nat>, p: nat)
    requires Chained(rs) && p < Total(rs)
    ensures ObjectChain(chunk, 0, []) && NoDup([]) && OutsideSame(rs, chunk, chunk, p)
  {
  }

  /** A slab does not notice writes to another page. */
  lemma OtherSlab(rs: seq<Region>, hdr: seq<Header>, chunk: map<nat, nat>, chunk': map<nat, nat>, fls: seq<seq<nat>>, p: nat, q: nat)
    requires Chained(rs) && AddressesOk(rs) && |hdr| == |fls| == Total(rs) && p < Total(rs) && p != q
    requires SlabOk(rs, hdr, chunk, fls, q) && OutsideSame(rs, chunk, chunk', p)
    ensures SlabOk(rs, hdr, chunk', fls, q)
  {
    var f, b := fls[q], AddressOf(rs, q);
    AddressRegion(rs, q, RegionAt(rs, q));
    if AddressOf(rs, p) == b { AddressInjective(rs, p, q); }
    hide AddressOf;
    forall i | 0 <= i < |f| ensures f[i] in chunk' && chunk'[f[i]] == chunk[f[i]] {
      ObjectPlace(b, hdr[q].cls, f[i], f[i]);
    }
  }

  /** Slab `p` leaves list `k`. */
  lemma RemovePlaced(slabs: set<nat>, hdr: seq<Header>, lists: seq<seq<nat>>, hand: set<nat>, k: nat, t: seq<nat>, i: nat)
    requires Placed(slabs, hdr, lists, hand) && Distinct(lists) && k < LISTS && IsWithout(t, lists[k], i)
    ensures Placed(slabs, hdr, lists[k := t], hand + {lists[k][i]})
  {
    WithoutMembers(t, lists[k], i);
  }

  /** Slab `p`, which is on no list, joins the list of state `st`. */
  lemma AddPlaced(slabs: set<nat>, hdr: seq<Header>, hdr': seq<Header>, lists: seq<seq<nat>>, lists': seq<seq<nat>>,
                  hand: set<nat>, p: nat)
    requires Placed(slabs, hdr, lists, hand) && p in slabs && p in hand && !OnList(lists, p)
    requires |hdr'| == |hdr| && hdr'[p].cls == hdr[p].cls && forall q :: 0 <= q < |hdr| && q != p ==> hdr'[q] == hdr[q]
    requires var k := ListId(hdr'[p].cls, hdr'[p].state);
             lists' == lists[k := [p] + lists[k]] && (hdr'[p].state == Empty ==> lists[k] == [])
    ensures Placed(slabs, hdr', lists', hand)
    ensures StateOk(hdr'[p]) ==> Placed(slabs, hdr', lists', hand - {p})
  {
    var k := ListId(hdr'[p].cls, hdr'[p].state);
    hide StateOk, ListId;
    forall j, q | 0 <= j < LISTS && q in lists'[j] ensures q in slabs && j == ListId(hdr'[q].cls, hdr'[q].state) {
      if q != p { assert q in lists[j]; }
    }
    forall q | q in slabs && q != p && q !in hand ensures q in lists'[ListId(hdr'[q].cls, hdr'[q].state)] {
      assert q in lists[ListId(hdr[q].cls, hdr[q].state)];
    }
    forall c | 0 <= c < CLASSES ensures |lists'[ListId(c, Empty)]| <= 1 {
      assert |lists[ListId(c, Empty)]| <= 1;
      if ListId(c, Empty) == k { ListIdInjective(c, Empty, hdr'[p].cls, hdr'[p].state); }
    }
  }

  /** The header of `p` changes, but neither its class nor its state. */
  lemma TouchPlaced(slabs: set<nat>, hdr: seq<Header>, hdr': seq<Header>, lists: seq<seq<nat>>, hand: set<nat>, p: nat)
    requires Placed(slabs, hdr, lists, hand) && p in slabs
    requires |hdr'| == |hdr| && forall q :: 0 <= q < |hdr| && q != p ==> hdr'[q] == hdr[q]
    requires hdr'[p].cls == hdr[p].cls && hdr'[p].state == hdr[p].state
    ensures Placed(slabs, hdr', lists, hand + {p})
  {
  }

  /** A slab that is on its list and in the right state need not be in hand. */
  lemma SettlePlaced(slabs: set<nat>, hdr: seq<Header>, lists: seq<seq<nat>>, hand: set<nat>, p: nat)
    requires Placed(slabs, hdr, lists, hand) && p in slabs
    requires StateOk(hdr[p]) && p in lists[ListId(hdr[p].cls, hdr[p].state)]
    ensures Placed(slabs, hdr, lists, hand - {p})
  {
  }

  // ----- objects -----

  lemma TakeObjects(b: nat, h: Header, f: seq<nat>, chunk: map<nat, nat>)
    requires ObjectsOk(b, h, f, chunk) && f != []
    ensures h.freelist == f[0] && f[0] in chunk
    ensures ObjectsOk(b, h.(freelist := chunk[f[0]], inuse := h.inuse + 1), f[1..], chunk)
  {
    hide IsObject, Capacity;
    var g := f[1..];
    assert chunk[f[0]] == At(f, 1);
    forall i | 0 <= i < |g| ensures g[i] in chunk && chunk[g[i]] == At(g, i + 1) { assert g[i] == f[i + 1]; }
    forall i, j | 0 <= i < j < |g| ensures g[i] != g[j] { assert f[i + 1] != f[j + 1]; }
  }

  /** Putting `x` in front of the chain. */
  lemma ObjectChainPush(chunk: map<nat, nat>, head: nat, f: seq<nat>, x: nat)
    requires ObjectChain(chunk, head, f) && NoDup(f) && x !in f && x != 0
    ensures ObjectChain(chunk[x := head], x, [x] + f) && NoDup([x] + f)
  {
    var g, chunk' := [x] + f, chunk[x := head];
    forall i | 0 <= i < |g| ensures g[i] in chunk' && g[i] != 0 && chunk'[g[i]] == At(g, i + 1) {
      if i > 0 { assert g[i] == f[i - 1] && f[i - 1] in f; }
    }
  }

  lemma GiveObjects(b: nat, h: Header, f: seq<nat>, chunk: map<nat, nat>, x: nat)
    requires ObjectsOk(b, h, f, chunk) && IsObject(b, h.cls, x) && x !in f && x != 0
    ensures h.inuse > 0
    ensures ObjectsOk(b, h.(freelist := x, inuse := h.inuse - 1), [x] + f, chunk[x := h.freelist])
  {
    LiveMeansInUse(b, h, f, chunk, x);
    hide IsObject;
    ObjectChainPush(chunk, h.freelist, f, x);
  }

  /** `x` is a slot of slab `p` that is not free. */
  ghost predicate LiveIn(rs: seq<Region>, hdr: seq<Header>, fls: seq<seq<nat>>, p: nat, x: nat)
    requires Chained(rs) && |hdr| == |fls| == Total(rs)
  {
    p < Total(rs) && hdr[p].cls < CLASSES && IsObject(AddressOf(rs, p), hdr[p].cls, x) && x !in fls[p]
  }

  ghost predicate LiveObject(rs: seq<Region>, slabs: set<nat>, hdr: seq<Header>, fls: seq<seq<nat>>, x: nat)
    requires Chained(rs) && |hdr| == |fls| == Total(rs)
  {
    exists p :: p in slabs && LiveIn(rs, hdr, fls, p, x)
  }

  /** An address is a slot of at most one page. */
  lemma OnePage(rs: seq<Region>, p: nat, c: nat, q: nat, d: nat, x: nat)
    requires Chained(rs) && AddressesOk(rs) && p < Total(rs) && q < Total(rs) && c < CLASSES && d < CLASSES
    requires IsObject(AddressOf(rs, p), c, x) && IsObject(AddressOf(rs, q), d, x)
    ensures p == q
  {
    AddressRegion(rs, p, RegionAt(rs, p));
    AddressRegion(rs, q, RegionAt(rs, q));
    ObjectPlace(AddressOf(rs, p), c, x, x);
    ObjectPlace(AddressOf(rs, q), d, x, x);
    AddressInjective(rs, p, q);
  }

  // ----- steps of the whole structure -----

  /** Headers and free chains differ at most for page `p`. */
  ghost predicate OthersSame(hdr: seq<Header>, hdr': seq<Header>, fls: seq<seq<nat>>, fls': seq<seq<nat>>, p: nat) {
    && |hdr'| == |hdr| && |fls'| == |fls|
    && (forall q :: 0 <= q < |hdr| && q != p ==> hdr'[q] == hdr[q])
    && (forall q :: 0 <= q < |fls| && q != p ==> fls'[q] == fls[q])
  }

  lemma OthersKeep(rs: seq<Region>, slabs: set<nat>, hdr: seq<Header>, hdr': seq<Header>, chunk: map<nat, nat>, chunk': map<nat, nat>,
                   fls: seq<seq<nat>>, fls': seq<seq<nat>>, p: nat)
    requires Chained(rs) && AddressesOk(rs) && |hdr| == |fls| == Total(rs) && p < Total(rs)
    requires forall q :: q in slabs ==> SlabOk(rs, hdr, chunk, fls, q)
    requires OthersSame(hdr, hdr', fls, fls', p) && OutsideSame(rs, chunk, chunk', p)
    ensures forall q :: q in slabs && q != p ==> SlabOk(rs, hdr', chunk', fls', q)
  {
    forall q | q in slabs && q != p ensures SlabOk(rs, hdr', chunk', fls', q) {
      OtherSlab(rs, hdr, chunk, chunk', fls, p, q);
    }
  }

  /** Objects of slab `p` are taken or given back; its list does not change. */
  lemma ObjectStep(rs: seq<Region>, slabs: set<nat>, hdr: seq<Header>, hdr': seq<Header>, chunk: map<nat, nat>, chunk': map<nat, nat>,
                   fls: seq<seq<nat>>, fls': seq<seq<nat>>, lists: seq<seq<nat>>, hand: set<nat>, p: nat)
    requires Chained(rs) && AddressesOk(rs) && SlabsOk(rs, slabs, hdr, chunk, fls, lists, hand) && p in slabs
    requires OthersSame(hdr, hdr', fls, fls', p) && OutsideSame(rs, chunk, chunk', p)
    requires hdr'[p].cls == hdr[p].cls && hdr'[p].state == hdr[p].state && SlabOk(rs, hdr', chunk', fls', p)
    ensures SlabsOk(rs, slabs, hdr', chunk', fls', lists, hand + {p})
  {
    SlabClass(rs, hdr, chunk, fls, p);
    hide Placed, SlabOk, OutsideSame;
    OthersKeep(rs, slabs, hdr, hdr', chunk, chunk', fls, fls', p);
    TouchPlaced(slabs, hdr, hdr', lists, hand, p);
  }

  /** A new slab, on no list yet. */
  lemma NewStep(rs: seq<Region>, slabs: set<nat>, hdr: seq<Header>, hdr': seq<Header>, chunk: map<nat, nat>, chunk': map<nat, nat>,
                fls: seq<seq<nat>>, fls': seq<seq<nat>>, lists: seq<seq<nat>>, p: nat)
    requires Chained(rs) && AddressesOk(rs) && SlabsOk(rs, slabs, hdr, chunk, fls, lists, {}) && p !in slabs && p < Total(rs)
    requires OthersSame(hdr, hdr', fls, fls', p) && OutsideSame(rs, chunk, chunk', p) && SlabOk(rs, hdr', chunk', fls', p)
    ensures SlabsOk(rs, slabs + {p}, hdr', chunk', fls', lists, {p}) && !OnList(lists, p)
  {
    OthersKeep(rs, slabs, hdr, hdr', chunk, chunk', fls, fls', p);
    hide SlabOk, OutsideSame;
    NewPlaced(slabs, hdr, hdr', lists, p);
    assert hdr'[p].cls < CLASSES by { SlabClass(rs, hdr', chunk', fls', p); }
  }

  lemma SlabClass(rs: seq<Region>, hdr: seq<Header>, chunk: map<nat, nat>, fls: seq<seq<nat>>, p: nat)
    requires Chained(rs) && |hdr| == |fls| == Total(rs) && SlabOk(rs, hdr, chunk, fls, p)
    ensures p < |hdr| && hdr[p].cls < CLASSES
  {
  }

  lemma NewPlaced(slabs: set<nat>, hdr: seq<Header>, hdr': seq<Header>, lists: seq<seq<nat>>, p: nat)
    requires Placed(slabs, hdr, lists, {}) && p !in slabs && p < |hdr| == |hdr'|
    requires forall q :: 0 <= q < |hdr| && q != p ==> hdr'[q] == hdr[q]
    ensures hdr'[p].cls < CLASSES ==> Placed(slabs + {p}, hdr', lists, {p})
    ensures !OnList(lists, p)
  {
  }

  /** A slab that is on no list goes away; whatever its page holds afterwards does not matter. */
  lemma DropStep(rs: seq<Region>, slabs: set<nat>, hdr: seq<Header>, hdr': seq<Header>, chunk: map<nat, nat>, chunk': map<nat, nat>,
                 fls: seq<seq<nat>>, lists: seq<seq<nat>>, p: nat)
    requires Chained(rs) && AddressesOk(rs) && SlabsOk(rs, slabs, hdr, chunk, fls, lists, {p}) && p in slabs && !OnList(lists, p)
    requires OthersSame(hdr, hdr', fls, fls, p) && OutsideSame(rs, chunk, chunk', p)
    ensures SlabsOk(rs, slabs - {p}, hdr', chunk', fls, lists, {})
  {
    assert p < Total(rs) by { SlabClass(rs, hdr, chunk, fls, p); }
    OthersKeep(rs, slabs, hdr, hdr', chunk, chunk', fls, fls, p);
    hide SlabOk, OutsideSame;
    DropPlaced(slabs, hdr, hdr', lists, p);
  }

  lemma DropPlaced(slabs: set<nat>, hdr: seq<Header>, hdr': seq<Header>, lists: seq<seq<nat>>, p: nat)
    requires Placed(slabs, hdr, lists, {p}) && p in slabs && !OnList(lists, p) && |hdr'| == |hdr|
    requires forall q :: 0 <= q < |hdr| && q != p ==> hdr'[q] == hdr[q]
    ensures Placed(slabs - {p}, hdr', lists, {})
  {
    forall k, q | 0 <= k < LISTS && q in lists[k] ensures q != p {
      assert q == p ==> OnList(lists, q);
    }
  }

  lemma WriteInPage(rs: seq<Region>, hdr: seq<Header>, chunk: map<nat, nat>, fls: seq<seq<nat>>, p: nat, x: nat, v: nat)
    requires Chained(rs) && AddressesOk(rs) && |hdr| == |fls| == Total(rs) && SlabOk(rs, hdr, chunk, fls, p)
    requires IsObject(AddressOf(rs, p), hdr[p].cls, x)
    ensures x > 0 && OutsideSame(rs, chunk, chunk[x := v], p)
  {
    AddressRegion(rs, p, RegionAt(rs, p));
    ObjectPlace(AddressOf(rs, p), hdr[p].cls, x, x);
  }

  // ----- live objects -----

  /** Taking the first free object of `p` makes exactly that object live. */
  lemma LiveAfterTake(rs: seq<Region>, slabs: set<nat>, hdr: seq<Header>, hdr': seq<Header>, chunk: map<nat, nat>,
                      fls: seq<seq<nat>>, fls': seq<seq<nat>>, p: nat, x: nat)
    requires Chained(rs) && AddressesOk(rs) && |hdr| == |fls| == Total(rs) && p in slabs
    requires SlabOk(rs, hdr, chunk, fls, p) && fls[p] != [] && x == fls[p][0]
    requires OthersSame(hdr, hdr', fls, fls', p) && hdr'[p].cls == hdr[p].cls && fls'[p] == fls[p][1..]
    requires forall q :: q in slabs ==> q < Total(rs) && hdr[q].cls < CLASSES
    ensures !LiveObject(rs, slabs, hdr, fls, x)
    ensures forall y :: LiveObject(rs, slabs, hdr', fls', y) <==> LiveObject(rs, slabs, hdr, fls, y) || y == x
  {
    LiveOnlyIn(rs, slabs, hdr, fls, p, x);
    hide SlabOk, IsObject, AddressOf;
    var f := fls[p];
    assert forall y :: y in f <==> y == f[0] || y in f[1..];
    assert f[0] !in f[1..] by { FirstNotInRest(rs, hdr, chunk, fls, p); }
    forall y ensures LiveObject(rs, slabs, hdr', fls', y) <==> LiveObject(rs, slabs, hdr, fls, y) || y == x {
      assert LiveIn(rs, hdr', fls', p, y) <==> LiveIn(rs, hdr, fls, p, y) || y == x;
      forall q | q in slabs && q != p ensures LiveIn(rs, hdr', fls', q, y) <==> LiveIn(rs, hdr, fls, q, y) {}
    }
  }

  lemma FirstNotInRest(rs: seq<Region>, hdr: seq<Header>, chunk: map<nat, nat>, fls: seq<seq<nat>>, p: nat)
    requires Chained(rs) && |hdr| == |fls| == Total(rs) && SlabOk(rs, hdr, chunk, fls, p) && fls[p] != []
    ensures fls[p][0] !in fls[p][1..] && IsObject(AddressOf(rs, p), hdr[p].cls, fls[p][0])
  {
  }

  /** A slot of `p` is live only if it is live in `p`. */
  lemma LiveOnlyIn(rs: seq<Region>, slabs: set<nat>, hdr: seq<Header>, fls: seq<seq<nat>>, p: nat, x: nat)
    requires Chained(rs) && AddressesOk(rs) && |hdr| == |fls| == Total(rs) && p in slabs
    requires p < Total(rs) && hdr[p].cls < CLASSES && IsObject(AddressOf(rs, p), hdr[p].cls, x)
    ensures LiveObject(rs, slabs, hdr, fls, x) <==> LiveIn(rs, hdr, fls, p, x)
  {
    if q :| q in slabs && LiveIn(rs, hdr, fls, q, x) {
      OnePage(rs, p, hdr[p].cls, q, hdr[q].cls, x);
    }
  }

  /** Giving `x` back to `p` ends exactly that object's life. */
  lemma LiveAfterGive(rs: seq<Region>, slabs: set<nat>, hdr: seq<Header>, hdr': seq<Header>,
                      fls: seq<seq<nat>>, fls': seq<seq<nat>>, p: nat, x: nat)
    requires Chained(rs) && AddressesOk(rs) && |hdr| == |fls| == Total(rs) && p in slabs && LiveIn(rs, hdr, fls, p, x)
    requires OthersSame(hdr, hdr', fls, fls', p) && hdr'[p].cls == hdr[p].cls && fls'[p] == [x] + fls[p]
    ensures forall y :: LiveObject(rs, slabs, hdr', fls', y) <==> LiveObject(rs, slabs, hdr, fls, y) && y != x
  {
    forall y ensures LiveObject(rs, slabs, hdr', fls', y) <==> LiveObject(rs, slabs, hdr, fls, y) && y != x {
      LiveOnlyIn(rs, slabs, hdr', fls', p, x);
      hide IsObject, AddressOf;
      assert LiveIn(rs, hdr', fls', p, y) <==> LiveIn(rs, hdr, fls, p, y) && y != x;
      forall q | q in slabs && q != p ensures LiveIn(rs, hdr', fls', q, y) <==> LiveIn(rs, hdr, fls, q, y) {}
    }
  }

  /** A slab without objects in use contributes no live object. */
  lemma {:induction false} NoneLive(rs: seq<Region>, hdr: seq<Header>, chunk: map<nat, nat>, fls: seq<seq<nat>>, p: nat, x: nat)
    requires Chained(rs) && |hdr| == |fls| == Total(rs) && SlabOk(rs, hdr, chunk, fls, p) && hdr[p].inuse == 0
    ensures !LiveIn(rs, hdr, fls, p, x)
  {
    if LiveIn(rs, hdr, fls, p, x) {
      LiveMeansInUse(AddressOf(rs, p), hdr[p], fls[p], chunk, x);
    }
  }
}
