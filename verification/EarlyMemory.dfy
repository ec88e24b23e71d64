/** Memory discovery before the page allocator runs: reservations, the early bump allocator, initialization. */
module EarlyMemory {
  import opened Bits
  import opened Blocks
  import opened Frames
  import opened Carving
  import opened PageAllocator

  const MAX_RESERVES: nat := 64
  const MAX_REGIONS: nat := 16
  const FRAME_META_BYTES: nat := 16

  /** A byte range as the device tree or the boot code gives it. */
  datatype Bytes = Bytes(base: nat, size: nat)

  ghost predicate IsU64(b: Bytes) {
    b.base < U64 && b.size < U64
  }

  /** The page at `pa` has a byte in common with `r`. */
  ghost predicate Touches(r: Bytes, pa: nat) {
    r.size > 0 && pa < r.base + r.size && r.base < pa + PAGE_SIZE
  }

  ghost predicate Overlap(aStart: nat, aEnd: nat, bStart: nat, bEnd: nat) {
    aStart < bEnd && bStart < aEnd
  }

  ghost predicate Clear(reserves: seq<Range>, p: nat, size: nat) {
    forall i :: 0 <= i < |reserves| ==> !Overlap(p, p + size, reserves[i].start, reserves[i].end)
  }

  ghost predicate RangesOk(reserves: seq<Range>) {
    forall i :: 0 <= i < |reserves| ==> reserves[i].start < reserves[i].end < U64 && reserves[i].start % PAGE_SIZE == 0
  }

  /** Nothing of that size and alignment fits between `from` and `end` beside the reservations. */
  ghost predicate NoPlace(reserves: seq<Range>, from: nat, end: nat, size: nat, align: nat)
    requires align > 0
  {
    forall q: nat :: from <= q && q + size <= end && q % align == 0 ==> !Clear(reserves, q, size)
  }

  lemma Pow2Of64()
    ensures Pow2(64) == U64
  {
    Pow2Of20();
    Pow2Sum(20, 20);
    Pow2Sum(40, 20);
    hide Pow2;
    Pow2Sum(60, 4);
    assert Pow2(4) == 16 by { Pow2Of4(); }
  }

  lemma Pow2Of4()
    ensures Pow2(4) == 16
  {
    assert Pow2(3) == 8;
  }

  /** The top of the address space is aligned, so above the last aligned address below it there is none. */
  lemma LastMultiple(k: nat, x: nat)
    requires Pow2(k) < U64 && x > U64_MAX - (Pow2(k) - 1)
    ensures forall q: nat :: x <= q && q % Pow2(k) == 0 ==> q >= U64
  {
    Pow2Of64();
    if k >= 64 { Pow2Monotone(64, k); }
    Pow2Sum(k, 64 - k);
    hide Pow2;
    var a, n := Pow2(k), Pow2(64 - k);
    forall q: nat | x <= q && q % a == 0 ensures q >= U64 {
      MultipleAbove(a, n, q);
    }
  }

  lemma MultipleAbove(a: nat, n: nat, q: nat)
    requires a > 0 && q % a == 0 && q > a * n - a
    ensures q >= a * n
  {
    var m := q / a;
    assert q == a * m;
    if m < n { MulMonotone(m + 1, n, a); }
  }

  lemma PageSizePow2()
    ensures Pow2(12) == PAGE_SIZE
  {
    assert Pow2(3) == 8 && Pow2(4) == 2 * Pow2(3) && Pow2(6) == 4 * Pow2(4);
    Pow2Sum(6, 6);
  }

  class Early {
    var reserves: seq<Range>
    var cur: nat
    var end: nat
    var ready: bool

    ghost predicate Valid()
      reads this
    {
      && |reserves| <= MAX_RESERVES && end < U64 && cur < U64
      && RangesOk(reserves)
      && (ready ==> cur >= PAGE_SIZE)
    }

    constructor ()
      ensures Valid() && !ready && reserves == []
    {
      reserves, cur, end, ready := [], 0, 0, false;
    }

    method Init(base: nat, size: nat)
      requires Valid() && base < U64 && size < U64
      modifies this
      ensures Valid() && reserves == old(reserves)
      ensures cur == (if base < PAGE_SIZE then PAGE_SIZE else base)
      ensures end == (if base + size < U64 then base + size else U64_MAX) && (ready <==> end > cur)
    {
      var e := (base + size) % U64;
      if e < base { e := U64_MAX; }
      cur, end := base, e;
      if cur < PAGE_SIZE { cur := PAGE_SIZE; }
      ready := end > cur;
    }

    /** Reserve every page that `[start, start + size)` touches, and no other page. */
    method Reserve(start: nat, size: nat)
      requires Valid() && start < U64 && size < U64
      modifies `reserves
      ensures Valid()
      ensures |old(reserves)| <= |reserves| <= |old(reserves)| + 1
      ensures |old(reserves)| == MAX_RESERVES ==> reserves == old(reserves)
      ensures |old(reserves)| < MAX_RESERVES ==> forall pa ::
        0 <= pa < U64 && pa % PAGE_SIZE == 0 ==>
          (PageAllocator.Reserved(reserves, pa) <==> PageAllocator.Reserved(old(reserves), pa) || Touches(Bytes(start, size), pa))
    {
      hide AlignDown, AlignUp;
      if size == 0 { return; }
      var e := (start + size) % U64;
      if e < start { e := U64_MAX; }
      PageSizePow2();
      var rs, re := AlignDown(start, PAGE_SIZE), U64_MAX;
      AlignDownIs(start, 12);
      if e <= U64_MAX - (PAGE_SIZE - 1) {
        re := AlignUp(e, PAGE_SIZE);
        AlignUpLeast(e, 12);
      }
      if re <= rs { return; }
      if |reserves| >= MAX_RESERVES { return; }
      ghost var r := Range(rs, re);
      forall pa | 0 <= pa < U64 && pa % PAGE_SIZE == 0
        ensures r.start <= pa < r.end <==> Touches(Bytes(start, size), pa)
      {
      }
      ghost var before := reserves;
      reserves := reserves + [Range(rs, re)];
      forall pa: nat ensures PageAllocator.Reserved(reserves, pa) <==> PageAllocator.Reserved(before, pa) || rs <= pa < re {
        ReservedAppend(before, r, pa);
      }
    }

    /** First-fit bump allocation: skip reserved ranges, then reserve the result. */
    method Alloc(size: nat, align0: nat) returns (p: nat)
      requires Valid() && size < U64 && align0 < U64
      modifies this
      ensures Valid()
      // Null: nothing changed, and the request is empty or ill-formed or has no place.
      ensures p == 0 ==> cur == old(cur) && reserves == old(reserves) && end == old(end) && ready == old(ready)
      ensures p == 0 <==> var align := if align0 == 0 then 16 else align0;
        !old(ready) || size == 0 || And(align, align - 1) != 0 || NoPlace(old(reserves), old(cur), old(end), size, align)
      ensures p != 0 ==> var align := if align0 == 0 then 16 else align0;
        && size > 0 && p % align == 0 && old(cur) <= p && p + size <= end && end == old(end) && ready
        && Clear(old(reserves), p, size)
        && (forall q: nat :: old(cur) <= q < p && q % align == 0 ==> !Clear(old(reserves), q, size))
        && cur == p + size
      ensures p != 0 ==> |old(reserves)| <= |reserves| <= |old(reserves)| + 1
      ensures p != 0 && |old(reserves)| < MAX_RESERVES ==> forall pa ::
        0 <= pa < U64 && pa % PAGE_SIZE == 0 ==>
          (PageAllocator.Reserved(reserves, pa) <==> PageAllocator.Reserved(old(reserves), pa) || Touches(Bytes(p, size), pa))
    {
      hide Clear, PageAllocator.Reserved, And, Touches;
      if !ready || size == 0 { return 0; }
      var align := if align0 == 0 then 16 else align0;
      if And(align, align - 1) != 0 { return 0; }
      if cur > U64_MAX - (align - 1) {
        ghost var k := SingleBit(align);
        LastMultiple(k, cur);
        return 0;
      }
      p := FirstFit(size, align);
      if p == 0 { return; }
      var e := p + size;
      if e > end { return 0; }
      cur := e;
      Reserve(p, size);
    }

    /** The lowest aligned place at or after the cursor that misses every reservation. */
    method FirstFit(size: nat, align: nat) returns (p: nat)
      requires Valid() && 0 < size < U64 && 0 < align < U64 && And(align, align - 1) == 0
      requires ready && cur <= U64_MAX - (align - 1)
      ensures p != 0 ==> cur <= p && p + size < U64 && p % align == 0 && Clear(reserves, p, size)
      ensures p != 0 ==> forall q: nat :: cur <= q < p && q % align == 0 ==> !Clear(reserves, q, size)
      ensures p == 0 ==> forall q: nat :: cur <= q && q + size < U64 && q % align == 0 ==> !Clear(reserves, q, size)
    {
      hide AlignUp, Clear;
      ghost var k := SingleBit(align);
      AlignUpLeast(cur, k);
      p := AlignUp(cur, align);
      while true
        invariant cur <= p < U64 && p % align == 0
        invariant forall q: nat :: cur <= q < p && q % align == 0 ==> !Clear(reserves, q, size)
        decreases U64 - p
      {
        if p + size >= U64 { return 0; }
        var hit, i := FindOverlap(p, size);
        if !hit { return; }
        forall q: nat | p <= q < reserves[i].end ensures !Clear(reserves, q, size) {
          StillOverlaps(reserves, i, p, q, size);
        }
        if reserves[i].end > U64_MAX - (align - 1) {
          LastMultiple(k, reserves[i].end);
          return 0;
        }
        AlignUpLeast(reserves[i].end, k);
        p := AlignUp(reserves[i].end, align);
      }
    }

    method FindOverlap(p: nat, size: nat) returns (hit: bool, i: nat)
      ensures hit ==> i < |reserves| && Overlap(p, p + size, reserves[i].start, reserves[i].end)
      ensures !hit ==> Clear(reserves, p, size)
    {
      i := 0;
      while i < |reserves|
        invariant i <= |reserves|
        invariant forall j :: 0 <= j < i ==> !Overlap(p, p + size, reserves[j].start, reserves[j].end)
      {
        if p < reserves[i].end && reserves[i].start < p + size { return true, i; }
        i := i + 1;
      }
      return false, 0;
    }
  }

  lemma ReservedAppend(before: seq<Range>, r: Range, pa: nat)
    ensures PageAllocator.Reserved(before + [r], pa) <==> PageAllocator.Reserved(before, pa) || r.start <= pa < r.end
  {
    var after := before + [r];
    assert after[|before|] == r;
    if PageAllocator.Reserved(before, pa) {
      var i :| 0 <= i < |before| && before[i].start <= pa < before[i].end;
      assert after[i] == before[i];
    }
  }

  lemma StillOverlaps(reserves: seq<Range>, i: nat, p: nat, q: nat, size: nat)
    requires i < |reserves| && Overlap(p, p + size, reserves[i].start, reserves[i].end)
    requires p <= q < reserves[i].end && size > 0
    ensures !Clear(reserves, q, size)
  {
  }

  // ----- regions -----

  const INT32_MAX: nat := 0x7FFF_FFFF

  /** A whole page at `pa` inside the byte range, which ends at the top of the address space at the latest. */
  ghost predicate WholePageIn(b: Bytes, pa: nat) {
    b.base <= pa && pa + PAGE_SIZE <= b.base + b.size && pa + PAGE_SIZE <= U64_MAX
  }

  /** The numbers of the first whole page of a range and of the page behind its last one. */
  function FirstPage(b: Bytes): nat {
    (b.base + (PAGE_SIZE - 1)) / PAGE_SIZE
  }

  function EndPage(b: Bytes): nat {
    (if b.base + b.size <= U64_MAX then b.base + b.size else U64_MAX) / PAGE_SIZE
  }

  function PagesOf(b: Bytes): nat {
    if EndPage(b) > FirstPage(b) then EndPage(b) - FirstPage(b) else 0
  }

  function SumPages(dt: seq<Bytes>): nat {
    if dt == [] then 0 else SumPages(dt[..|dt| - 1]) + PagesOf(dt[|dt| - 1])
  }

  /** The ranges that hold a whole page, in device-tree order, with their pages numbered through. */
  function RegionsOf(dt: seq<Bytes>): seq<Region> {
    if dt == [] then [] else
      var b, rs := dt[|dt| - 1], RegionsOf(dt[..|dt| - 1]);
      if PagesOf(b) == 0 then rs
      else rs + [Region(FirstPage(b) * PAGE_SIZE, PagesOf(b) * PAGE_SIZE, SumPages(dt[..|dt| - 1]), PagesOf(b))]
  }

  ghost predicate Shares(b: Bytes, c: Bytes) {
    exists pa :: 0 <= pa && pa % PAGE_SIZE == 0 && WholePageIn(b, pa) && WholePageIn(c, pa)
  }

  /** No range starts in the last page of the address space, no two share a page, and page numbers fit 31 bits. */
  ghost predicate Acceptable(dt: seq<Bytes>) {
    && (forall d :: 0 <= d < |dt| ==> dt[d].base <= U64_MAX - (PAGE_SIZE - 1))
    && (forall d, e :: 0 <= d < e < |dt| ==> !Shares(dt[d], dt[e]))
    && SumPages(dt) <= INT32_MAX
  }

  lemma {:induction false} SumGrows(dt: seq<Bytes>, i: nat)
    requires i <= |dt|
    ensures SumPages(dt[..i]) <= SumPages(dt)
  {
    if i < |dt| {
      SumGrows(dt[..|dt| - 1], i);
      assert dt[..|dt| - 1][..i] == dt[..i];
    } else {
      assert dt[..i] == dt;
    }
  }

  /** What is wrong with some of the ranges is wrong with all. */
  lemma PrefixAcceptable(dt: seq<Bytes>, i: nat)
    requires i <= |dt|
    ensures Acceptable(dt) ==> Acceptable(dt[..i])
  {
    SumGrows(dt, i);
  }

  /** One more range, given how it relates to the regions of the others. */
  lemma AcceptMore(rs: seq<Region>, dt: seq<Bytes>, b: Bytes)
    requires Covers(rs, dt) && Acceptable(dt)
    ensures SumPages(dt) <= INT32_MAX
    ensures Acceptable(dt + [b]) <==> b.base <= U64_MAX - (PAGE_SIZE - 1) && SumPages(dt) + PagesOf(b) <= INT32_MAX
                                      && forall r :: 0 <= r < |rs| ==> !Meets(rs[r], b)
  {
    hide Covers, Shares, Meets, SumPages, PagesOf;
    var dt' := dt + [b];
    OneMoreRange(dt, b);
    SharesMeets(rs, dt, b);
    forall d | 0 <= d < |dt| ensures dt'[d] == dt[d] {}
    assert dt'[|dt|] == b;
    if Acceptable(dt') {
      assert forall d :: 0 <= d < |dt| ==> !Shares(dt'[d], dt'[|dt|]);
    }
  }

  /** The region and the range have a page in common. */
  ghost predicate Meets(r: Region, b: Bytes) {
    exists pa :: 0 <= pa && pa % PAGE_SIZE == 0 && InRegion(r, pa) && WholePageIn(b, pa)
  }

  lemma SharesMeets(rs: seq<Region>, dt: seq<Bytes>, b: Bytes)
    requires Covers(rs, dt)
    ensures (forall d :: 0 <= d < |dt| ==> !Shares(dt[d], b)) <==> (forall r :: 0 <= r < |rs| ==> !Meets(rs[r], b))
  {
    if d :| 0 <= d < |dt| && Shares(dt[d], b) {
      var pa :| 0 <= pa && pa % PAGE_SIZE == 0 && WholePageIn(dt[d], pa) && WholePageIn(b, pa);
      var r :| 0 <= r < |rs| && InRegion(rs[r], pa);
      assert Meets(rs[r], b);
    }
    if r :| 0 <= r < |rs| && Meets(rs[r], b) {
      var pa :| 0 <= pa && pa % PAGE_SIZE == 0 && InRegion(rs[r], pa) && WholePageIn(b, pa);
      var d :| 0 <= d < |dt| && WholePageIn(dt[d], pa);
      assert Shares(dt[d], b);
    }
  }

  /** Page-aligned intervals meet exactly if they overlap. */
  lemma MeetsIsOverlap(rs: seq<Region>, r: nat, b: Bytes, start: nat, end: nat)
    requires AddressesOk(rs) && r < |rs| && rs[r].pages > 0 && start < end && start % PAGE_SIZE == 0
    requires forall pa :: pa % PAGE_SIZE == 0 && pa >= 0 ==> (start <= pa < end <==> WholePageIn(b, pa))
    ensures Meets(rs[r], b) <==> start < rs[r].base + rs[r].size && rs[r].base < end
  {
    var pa := if start < rs[r].base then rs[r].base else start;
    if start < rs[r].base + rs[r].size && rs[r].base < end {
      assert InRegion(rs[r], pa) && WholePageIn(b, pa);
    }
    if q :| 0 <= q && q % PAGE_SIZE == 0 && InRegion(rs[r], q) && WholePageIn(b, q) {
      assert start <= q < end;
    }
  }

  ghost predicate InRegion(r: Region, pa: nat) {
    r.base <= pa < r.base + r.size
  }

  /** The page-aligned part of one device-tree range. */
  method AlignRange(b: Bytes) returns (ok: bool, start: nat, end: nat)
    requires IsU64(b)
    ensures ok <==> b.base <= U64_MAX - (PAGE_SIZE - 1)
    ensures ok ==> start == FirstPage(b) * PAGE_SIZE && end == EndPage(b) * PAGE_SIZE && end <= U64_MAX
    ensures ok ==> forall pa :: pa % PAGE_SIZE == 0 && pa >= 0 ==> (start <= pa < end <==> WholePageIn(b, pa))
  {
    hide AlignDown, AlignUp, Pow2;
    if b.base > U64_MAX - (PAGE_SIZE - 1) { return false, 0, 0; }
    PageSizePow2();
    AlignUpLeast(b.base, 12);
    start := AlignUp(b.base, PAGE_SIZE);
    var rawEnd := (b.base + b.size) % U64;
    if rawEnd < b.base { rawEnd := U64_MAX; }
    AlignDownIs(rawEnd, 12);
    end := AlignDown(rawEnd, PAGE_SIZE);
    ok := true;
    WholePages(b, start, end, rawEnd);
    PageNumbers(b, start, end, rawEnd);
  }

  lemma PageNumbers(b: Bytes, start: nat, end: nat, rawEnd: nat)
    requires IsU64(b) && rawEnd == (if (b.base + b.size) % U64 < b.base then U64_MAX else (b.base + b.size) % U64)
    requires b.base <= start && start % PAGE_SIZE == 0 && end == rawEnd - rawEnd % PAGE_SIZE
    requires forall q: nat :: b.base <= q && q % PAGE_SIZE == 0 ==> start <= q
    ensures start == FirstPage(b) * PAGE_SIZE && end == EndPage(b) * PAGE_SIZE
  {
    MultipleNotBelow(b.base, PAGE_SIZE, start);
    assert FirstPage(b) * PAGE_SIZE % PAGE_SIZE == 0;
    assert rawEnd == if b.base + b.size <= U64_MAX then b.base + b.size else U64_MAX;
  }

  lemma WholePages(b: Bytes, start: nat, end: nat, rawEnd: nat)
    requires IsU64(b) && rawEnd == (if (b.base + b.size) % U64 < b.base then U64_MAX else (b.base + b.size) % U64)
    requires b.base <= start && start % PAGE_SIZE == 0 && end == rawEnd - rawEnd % PAGE_SIZE
    requires forall q: nat :: b.base <= q && q % PAGE_SIZE == 0 ==> start <= q
    ensures forall pa :: pa % PAGE_SIZE == 0 && pa >= 0 ==> (start <= pa < end <==> WholePageIn(b, pa))
  {
    assert rawEnd == if b.base + b.size <= U64_MAX then b.base + b.size else U64_MAX;
    forall pa | pa % PAGE_SIZE == 0 && pa >= 0 ensures start <= pa < end <==> WholePageIn(b, pa) {
      assert start <= pa <==> b.base <= pa;
      assert pa < end <==> pa + PAGE_SIZE <= rawEnd;
    }
  }

  ghost predicate RegionsOk(rs: seq<Region>) {
    Chained(rs) && AddressesOk(rs) && Total(rs) <= INT32_MAX
  }

  /** The regions hold exactly the whole pages of the ranges. */
  ghost predicate Covers(rs: seq<Region>, dt: seq<Bytes>) {
    forall pa :: 0 <= pa && pa % PAGE_SIZE == 0 ==>
      ((exists r :: 0 <= r < |rs| && InRegion(rs[r], pa)) <==> (exists d :: 0 <= d < |dt| && WholePageIn(dt[d], pa)))
  }

  /** The loop over the device-tree ranges; it fails exactly on ranges that are not acceptable. */
  method DiscoverRegions(dt: seq<Bytes>) returns (ok: bool, rs: seq<Region>)
    requires |dt| <= MAX_REGIONS && forall i :: 0 <= i < |dt| ==> IsU64(dt[i])
    ensures ok <==> Acceptable(dt)
    ensures ok ==> rs == RegionsOf(dt) && RegionsOk(rs) && Covers(rs, dt)
  {
    hide RegionsOk, Covers, Acceptable, RegionsOf, SumPages, PagesOf, FirstPage, EndPage, WholePageIn, Meets;
    rs := [];
    NoRegions();
    for i := 0 to |dt|
      invariant rs == RegionsOf(dt[..i]) && RegionsOk(rs) && Covers(rs, dt[..i]) && Acceptable(dt[..i]) && Total(rs) == SumPages(dt[..i])
    {
      assert dt[..i + 1] == dt[..i] + [dt[i]];
      OneMoreRange(dt[..i], dt[i]);
      PrefixAcceptable(dt, i + 1);
      AcceptMore(rs, dt[..i], dt[i]);
      var aligned, start, end := AlignRange(dt[i]);
      if !aligned { return false, []; }
      if end <= start {
        NoPages(rs, dt[i], start, end);
        SkipRange(rs, dt[..i], dt[i], start, end);
        continue;
      }
      var pages := (end - start) / PAGE_SIZE;
      var total := Total(rs);
      SomePages(dt[i], start, end);
      if pages > INT32_MAX - total { return false, []; }
      var clash := AnyOverlap(rs, dt[i], start, end);
      if clash { return false, []; }
      AddRegion(rs, start, end, pages);
      CoverMore(rs, dt[..i], dt[i], Region(start, end - start, total, pages));
      rs := rs + [Region(start, end - start, total, pages)];
    }
    assert dt[..|dt|] == dt;
    ok := true;
  }

  method AnyOverlap(rs: seq<Region>, ghost b: Bytes, start: nat, end: nat) returns (hit: bool)
    requires RegionsOk(rs) && start < end && start % PAGE_SIZE == 0
    requires forall pa :: pa % PAGE_SIZE == 0 && pa >= 0 ==> (start <= pa < end <==> WholePageIn(b, pa))
    ensures hit <==> exists r :: 0 <= r < |rs| && Meets(rs[r], b)
    ensures !hit ==> forall r :: 0 <= r < |rs| ==> end <= rs[r].base || rs[r].base + rs[r].size <= start
  {
    hide Meets, WholePageIn;
    for r := 0 to |rs|
      invariant forall j :: 0 <= j < r ==> !Meets(rs[j], b) && (end <= rs[j].base || rs[j].base + rs[j].size <= start)
    {
      MeetsIsOverlap(rs, r, b, start, end);
      if start < rs[r].base + rs[r].size && rs[r].base < end { return true; }
    }
    return false;
  }

  lemma OneMoreRange(dt: seq<Bytes>, b: Bytes)
    ensures SumPages(dt + [b]) == SumPages(dt) + PagesOf(b)
    ensures RegionsOf(dt + [b]) == if PagesOf(b) == 0 then RegionsOf(dt)
                                   else RegionsOf(dt) + [Region(FirstPage(b) * PAGE_SIZE, PagesOf(b) * PAGE_SIZE, SumPages(dt), PagesOf(b))]
  {
    assert (dt + [b])[..|dt|] == dt;
  }

  lemma NoPages(rs: seq<Region>, b: Bytes, start: nat, end: nat)
    requires start == FirstPage(b) * PAGE_SIZE && end == EndPage(b) * PAGE_SIZE && end <= start
    requires forall pa :: pa % PAGE_SIZE == 0 && pa >= 0 ==> (start <= pa < end <==> WholePageIn(b, pa))
    ensures PagesOf(b) == 0 && forall r :: 0 <= r < |rs| ==> !Meets(rs[r], b)
  {
  }

  lemma SomePages(b: Bytes, start: nat, end: nat)
    requires start == FirstPage(b) * PAGE_SIZE < end == EndPage(b) * PAGE_SIZE
    ensures (end - start) / PAGE_SIZE == PagesOf(b) > 0 && end - start == PagesOf(b) * PAGE_SIZE
  {
    assert end - start == (EndPage(b) - FirstPage(b)) * PAGE_SIZE;
  }

  lemma NoRegions()
    ensures RegionsOk([]) && Covers([], []) && Acceptable([]) && RegionsOf([]) == [] && SumPages([]) == 0
  {
  }

  lemma SkipRange(rs: seq<Region>, dt: seq<Bytes>, b: Bytes, start: nat, end: nat)
    requires Covers(rs, dt) && end <= start
    requires forall pa :: pa % PAGE_SIZE == 0 && pa >= 0 ==> (start <= pa < end <==> WholePageIn(b, pa))
    ensures Covers(rs, dt + [b])
  {
    forall pa | 0 <= pa && pa % PAGE_SIZE == 0
      ensures (exists d :: 0 <= d < |dt| && WholePageIn(dt[d], pa))
         <==> (exists d :: 0 <= d < |dt + [b]| && WholePageIn((dt + [b])[d], pa))
    {
      if d :| 0 <= d < |dt| && WholePageIn(dt[d], pa) { assert (dt + [b])[d] == dt[d]; }
    }
  }

  lemma CoverMore(rs: seq<Region>, dt: seq<Bytes>, b: Bytes, r: Region)
    requires Covers(rs, dt)
    requires forall pa :: pa % PAGE_SIZE == 0 && pa >= 0 ==> (r.base <= pa < r.base + r.size <==> WholePageIn(b, pa))
    ensures Covers(rs + [r], dt + [b])
  {
    var rs', dt' := rs + [r], dt + [b];
    forall pa | 0 <= pa && pa % PAGE_SIZE == 0
      ensures (exists i :: 0 <= i < |rs'| && InRegion(rs'[i], pa)) <==> (exists d :: 0 <= d < |dt'| && WholePageIn(dt'[d], pa))
    {
      assert rs'[|rs|] == r && dt'[|dt|] == b;
      if i :| 0 <= i < |rs| && InRegion(rs[i], pa) { assert rs'[i] == rs[i]; }
      if d :| 0 <= d < |dt| && WholePageIn(dt[d], pa) { assert dt'[d] == dt[d]; }
      if i :| 0 <= i < |rs'| && InRegion(rs'[i], pa) { assert i < |rs| ==> InRegion(rs[i], pa); }
      if d :| 0 <= d < |dt'| && WholePageIn(dt'[d], pa) { assert d < |dt| ==> WholePageIn(dt[d], pa); }
    }
  }

  lemma AddRegion(rs: seq<Region>, start: nat, end: nat, pages: nat)
    requires RegionsOk(rs) && start < end <= U64_MAX && start % PAGE_SIZE == 0 && end % PAGE_SIZE == 0
    requires pages == (end - start) / PAGE_SIZE <= INT32_MAX - Total(rs)
    requires forall r :: 0 <= r < |rs| ==> end <= rs[r].base || rs[r].base + rs[r].size <= start
    ensures RegionsOk(rs + [Region(start, end - start, Total(rs), pages)])
  {
    assert pages > 0;
    hide Total;
    var rs' := rs + [Region(start, end - start, Total(rs), pages)];
    AddChained(rs, rs', pages);
    hide Chained;
    assert (end - start) % PAGE_SIZE == 0 && (end - start) / PAGE_SIZE * PAGE_SIZE == end - start;
  }

  lemma AddChained(rs: seq<Region>, rs': seq<Region>, pages: nat)
    requires Chained(rs) && |rs'| == |rs| + 1 && rs' == rs + [rs'[|rs|]] && rs'[|rs|].first == Total(rs) && rs'[|rs|].pages == pages > 0
    ensures Chained(rs') && Total(rs') == Total(rs) + pages
  {
    forall i {:trigger rs'[..i]} | 0 <= i < |rs'| ensures rs'[i].first == Total(rs'[..i]) {
      assert rs'[..i] == rs[..i];
      assert rs[..|rs|] == rs;
    }
    assert rs'[..|rs|] == rs;
  }

  // ----- initialization -----

  ghost predicate Touched(requests: seq<Bytes>, pa: nat) {
    exists i :: 0 <= i < |requests| && Touches(requests[i], pa)
  }

  /** The table reserves exactly the pages that the requests touch. */
  ghost predicate Records(reserves: seq<Range>, requests: seq<Bytes>) {
    && |reserves| <= |requests|
    && (forall pa :: 0 <= pa < U64 && pa % PAGE_SIZE == 0 ==>
      (PageAllocator.Reserved(reserves, pa) <==> Touched(requests, pa)))
  }

  lemma RecordsMore(before: seq<Range>, after: seq<Range>, requests: seq<Bytes>, b: Bytes)
    requires Records(before, requests) && |after| <= |before| + 1
    requires forall pa :: 0 <= pa < U64 && pa % PAGE_SIZE == 0 ==>
      (PageAllocator.Reserved(after, pa) <==> PageAllocator.Reserved(before, pa) || Touches(b, pa))
    ensures Records(after, requests + [b])
  {
    var r' := requests + [b];
    forall pa | 0 <= pa < U64 && pa % PAGE_SIZE == 0 ensures Touched(r', pa) <==> Touched(requests, pa) || Touches(b, pa) {
      assert r'[|requests|] == b;
      if i :| 0 <= i < |requests| && Touches(requests[i], pa) { assert r'[i] == requests[i]; }
    }
  }

  method ReserveAll(early: Early, list: seq<Bytes>, ghost requests: seq<Bytes>)
    requires early.Valid() && Records(early.reserves, requests) && |requests| + |list| <= MAX_RESERVES
    requires forall i :: 0 <= i < |list| ==> IsU64(list[i])
    modifies early`reserves
    ensures early.Valid() && Records(early.reserves, requests + list)
  {
    hide Records, PageAllocator.Reserved;
    ghost var done := requests;
    assert requests + list[..0] == requests;
    for i := 0 to |list|
      invariant early.Valid() && Records(early.reserves, requests + list[..i])
    {
      ghost var before := early.reserves;
      RecordsLength(before, requests + list[..i]);
      early.Reserve(list[i].base, list[i].size);
      RecordsMore(before, early.reserves, requests + list[..i], list[i]);
      assert requests + list[..i + 1] == requests + list[..i] + [list[i]];
    }
    assert list[..|list|] == list;
  }

  lemma RecordsLength(reserves: seq<Range>, requests: seq<Bytes>)
    requires Records(reserves, requests)
    ensures |reserves| <= |requests|
  {
  }

  /** Room for the frame metadata: page-aligned bytes of the region, not in page 0, that no request touches. */
  ghost predicate Room(r: Region, requests: seq<Bytes>, size: nat) {
    exists q :: r.base <= q && PAGE_SIZE <= q && q % PAGE_SIZE == 0 && q + size <= r.base + r.size && Untouched(requests, q, size)
  }

  ghost predicate Untouched(requests: seq<Bytes>, q: nat, size: nat) {
    forall pa :: q <= pa < q + size && pa % PAGE_SIZE == 0 ==> !Touched(requests, pa)
  }

  /** An aligned place misses the table exactly if no request touches its pages. */
  lemma ClearIsUntouched(reserves: seq<Range>, requests: seq<Bytes>, q: nat, size: nat)
    requires Records(reserves, requests) && RangesOk(reserves) && q % PAGE_SIZE == 0 && q + size < U64 && size > 0
    ensures Clear(reserves, q, size) <==> Untouched(requests, q, size)
  {
    hide Touched;
    if i :| 0 <= i < |reserves| && Overlap(q, q + size, reserves[i].start, reserves[i].end) {
      var pa := if q < reserves[i].start then reserves[i].start else q;
      assert PageAllocator.Reserved(reserves, pa);
    }
    if pa :| q <= pa < q + size && pa % PAGE_SIZE == 0 && Touched(requests, pa) {
      var i :| 0 <= i < |reserves| && reserves[i].start <= pa < reserves[i].end;
      assert Overlap(q, q + size, reserves[i].start, reserves[i].end);
    }
  }

  lemma RoomIsPlace(reserves: seq<Range>, requests: seq<Bytes>, r: Region, from: nat, end: nat, size: nat)
    requires Records(reserves, requests) && RangesOk(reserves) && r.base + r.size < U64 && size > 0
    requires from == (if r.base < PAGE_SIZE then PAGE_SIZE else r.base) && end == r.base + r.size
    ensures Room(r, requests, size) <==> !NoPlace(reserves, from, end, size, PAGE_SIZE)
    ensures end <= from ==> NoPlace(reserves, from, end, size, PAGE_SIZE)
  {
    hide Records, RangesOk, Clear, Untouched;
    forall q: nat | q % PAGE_SIZE == 0 && q + size < U64 ensures Clear(reserves, q, size) <==> Untouched(requests, q, size) {
      ClearIsUntouched(reserves, requests, q, size);
    }
  }

  const MOST_REQUESTS: nat := 38

  /** What must not be handed out: page 0, the device tree, the kernel image, the user window, the archive, and what the device tree reserves. */
  ghost predicate Claimed(dtb: Bytes, kernel: Bytes, user: Bytes, initrd: seq<Bytes>, memReserve: seq<Bytes>, reservedNodes: seq<Bytes>, pa: nat) {
    || pa < PAGE_SIZE
    || Touches(dtb, pa) || Touches(kernel, pa) || Touches(user, pa)
    || (exists b :: b in initrd && Touches(b, pa))
    || (exists b :: b in memReserve && Touches(b, pa))
    || (exists b :: b in reservedNodes && Touches(b, pa))
  }

  /** A page-aligned place for `size` bytes in the region, on pages that nobody claims. */
  ghost predicate MetadataFits(r: Region, dtb: Bytes, kernel: Bytes, user: Bytes, initrd: seq<Bytes>, memReserve: seq<Bytes>,
                               reservedNodes: seq<Bytes>, size: nat)
  {
    exists q :: && r.base <= q && q % PAGE_SIZE == 0 && q + size <= r.base + r.size
                && forall pa :: q <= pa < q + size && pa % PAGE_SIZE == 0 ==> !Claimed(dtb, kernel, user, initrd, memReserve, reservedNodes, pa)
  }

  lemma TouchedJoin(a: seq<Bytes>, b: seq<Bytes>, pa: nat)
    ensures Touched(a + b, pa) <==> Touched(a, pa) || Touched(b, pa)
  {
    if i :| 0 <= i < |a| && Touches(a[i], pa) { assert (a + b)[i] == a[i]; }
    if i :| 0 <= i < |b| && Touches(b[i], pa) { assert (a + b)[|a| + i] == b[i]; }
  }

  lemma TouchedIn(a: seq<Bytes>, pa: nat)
    ensures Touched(a, pa) <==> exists b :: b in a && Touches(b, pa)
  {
  }

  lemma TouchedFixed(dtb: Bytes, kernel: Bytes, user: Bytes, pa: nat)
    ensures Touched([Bytes(0, PAGE_SIZE), dtb, kernel, user], pa) <==> pa < PAGE_SIZE || Touches(dtb, pa) || Touches(kernel, pa) || Touches(user, pa)
  {
    var l := [Bytes(0, PAGE_SIZE), dtb, kernel, user];
    assert l[0] == Bytes(0, PAGE_SIZE) && l[1] == dtb && l[2] == kernel && l[3] == user;
  }

  /** The list of requests touches exactly the claimed pages. */
  lemma RequestsClaim(dtb: Bytes, kernel: Bytes, user: Bytes, initrd: seq<Bytes>, memReserve: seq<Bytes>, reservedNodes: seq<Bytes>, pa: nat)
    ensures Touched([Bytes(0, PAGE_SIZE), dtb, kernel, user] + initrd + memReserve + reservedNodes, pa)
       <==> Claimed(dtb, kernel, user, initrd, memReserve, reservedNodes, pa)
  {
    hide Touched, Touches;
    var fixed := [Bytes(0, PAGE_SIZE), dtb, kernel, user];
    TouchedFixed(dtb, kernel, user, pa);
    TouchedJoin(fixed, initrd, pa);
    TouchedJoin(fixed + initrd, memReserve, pa);
    TouchedJoin(fixed + initrd + memReserve, reservedNodes, pa);
    TouchedIn(initrd, pa);
    TouchedIn(memReserve, pa);
    TouchedIn(reservedNodes, pa);
  }

  lemma RoomIsFit(r: Region, requests: seq<Bytes>, dtb: Bytes, kernel: Bytes, user: Bytes, initrd: seq<Bytes>, memReserve: seq<Bytes>,
                  reservedNodes: seq<Bytes>, size: nat)
    requires forall pa :: 0 <= pa ==> (Touched(requests, pa) <==> Claimed(dtb, kernel, user, initrd, memReserve, reservedNodes, pa))
    requires size > 0
    ensures Room(r, requests, size) <==> MetadataFits(r, dtb, kernel, user, initrd, memReserve, reservedNodes, size)
  {
    hide Touched, Touches;
    if q :| && r.base <= q && q % PAGE_SIZE == 0 && q + size <= r.base + r.size
            && forall pa :: q <= pa < q + size && pa % PAGE_SIZE == 0 ==> !Claimed(dtb, kernel, user, initrd, memReserve, reservedNodes, pa) {
      assert q <= q < q + size && !Claimed(dtb, kernel, user, initrd, memReserve, reservedNodes, q);
      hide Claimed;
      assert Untouched(requests, q, size);
    }
  }

  /**
   Build the allocator: regions from the device tree, then the reservations in the order page 0,
   device tree, kernel, user window, initrd, reserve map, reserved-memory nodes, frame metadata.
   `initrd` is empty when there is no archive. It fails exactly if the ranges are not acceptable, hold no page, or
   leave no room for the metadata in the first region.
   */
  method MemoryInit(dt: seq<Bytes>, dtb: Bytes, kernel: Bytes, user: Bytes, initrd: seq<Bytes>,
                    memReserve: seq<Bytes>, reservedNodes: seq<Bytes>)
    returns (a: Allocator?, ghost metadata: Bytes, ghost reserves: seq<Range>)
    requires |dt| <= MAX_REGIONS && |memReserve| <= MAX_REGIONS && |reservedNodes| <= MAX_REGIONS && |initrd| <= 1
    requires forall b :: b in dt || b in memReserve || b in reservedNodes || b in initrd || b in {dtb, kernel, user} ==> IsU64(b)
    ensures a == null <==> || !Acceptable(dt) || RegionsOf(dt) == []
                           || !MetadataFits(RegionsOf(dt)[0], dtb, kernel, user, initrd, memReserve, reservedNodes, SumPages(dt) * FRAME_META_BYTES)
    ensures a != null ==> fresh(a) && a.Valid() && a.ready && a.mem.used == {} && a.regions == RegionsOf(dt) && Covers(a.regions, dt)
    ensures a != null ==> metadata.size == a.managed * FRAME_META_BYTES && metadata.base % PAGE_SIZE == 0
    ensures a != null ==> a.regions != [] && a.regions[0].base <= metadata.base && metadata.base + metadata.size <= a.regions[0].base + a.regions[0].size
    // No request is dropped: every one has its table entry, and the metadata takes pages nobody else claims.
    ensures |reserves| <= MOST_REQUESTS < MAX_RESERVES
    ensures a != null ==> forall pa :: 0 <= pa < U64 && pa % PAGE_SIZE == 0 ==>
      (PageAllocator.Reserved(reserves, pa) <==> Claimed(dtb, kernel, user, initrd, memReserve, reservedNodes, pa) || Touches(metadata, pa))
    ensures a != null ==> forall pa :: 0 <= pa && pa % PAGE_SIZE == 0 && Touches(metadata, pa) ==>
      !Claimed(dtb, kernel, user, initrd, memReserve, reservedNodes, pa)
    // A page is available exactly when nothing, the metadata included, touches it.
    ensures a != null ==> forall p :: 0 <= p < a.managed ==> var pa := AddressOf(a.regions, p);
      (p in a.usable <==>
         && pa >= PAGE_SIZE && !Touches(dtb, pa) && !Touches(kernel, pa) && !Touches(user, pa) && !Touches(metadata, pa)
         && (forall b :: b in initrd ==> !Touches(b, pa))
         && (forall b :: b in memReserve ==> !Touches(b, pa))
         && (forall b :: b in reservedNodes ==> !Touches(b, pa)))
    ensures a != null ==> AllMaximal(a.regions, a.usable, a.mem.free)
    ensures a != null ==> forall p :: 0 <= p < a.managed ==> a.frames[p].kind == NoKind
  {
    hide Records, Covers, Touched, Touches, AllMaximal, AddressOf, Allocator.Valid, Chained, PageAllocator.Reserved, Acceptable, RegionsOf, Room, NoPlace,
      RangesOk, Claimed, MetadataFits, Clear, Overlap;
    a, metadata, reserves := null, Bytes(0, 0), [];
    var ok, rs := DiscoverRegions(dt);
    if !ok || rs == [] { return; }
    RegionsSum(dt);
    var early := new Early();
    FirstRegion(rs);
    early.Init(rs[0].base, rs[0].size);
    var list := [Bytes(0, PAGE_SIZE), dtb, kernel, user] + initrd + memReserve + reservedNodes;
    var size := Total(rs) * FRAME_META_BYTES;
    forall pa | 0 <= pa ensures Touched(list, pa) <==> Claimed(dtb, kernel, user, initrd, memReserve, reservedNodes, pa) {
      RequestsClaim(dtb, kernel, user, initrd, memReserve, reservedNodes, pa);
    }
    RoomIsFit(rs[0], list, dtb, kernel, user, initrd, memReserve, reservedNodes, size);
    assert Records([], []) by { NothingRecorded(); }
    ReserveAll(early, list, []);
    assert [] + list == list;
    RecordsLength(early.reserves, list);
    reserves := early.reserves;
    RoomIsPlace(reserves, list, rs[0], early.cur, early.end, size);
    PageMask();
    var p := early.Alloc(size, PAGE_SIZE);
    if p == 0 { return; }
    metadata := Bytes(p, size);
    ApartFromRequests(reserves, list, p, size);
    RecordsMore(reserves, early.reserves, list, metadata);
    reserves := early.reserves;
    a := BuildAllocator(rs, early.reserves, list + [metadata]);
    AllClaims(reserves, list, metadata);
    UsableIf(a.regions, a.usable, list, metadata, dtb, kernel, user, initrd, memReserve, reservedNodes);
  }

  /** The place found for the metadata touches no page of a request. */
  lemma ApartFromRequests(reserves: seq<Range>, requests: seq<Bytes>, q: nat, size: nat)
    requires Records(reserves, requests) && RangesOk(reserves) && q % PAGE_SIZE == 0 && q + size < U64 && size > 0
    requires Clear(reserves, q, size)
    ensures forall pa :: 0 <= pa && pa % PAGE_SIZE == 0 && Touches(Bytes(q, size), pa) ==> !Touched(requests, pa)
  {
    hide Records, Touched, Clear;
    ClearIsUntouched(reserves, requests, q, size);
    forall pa | 0 <= pa && pa % PAGE_SIZE == 0 && Touches(Bytes(q, size), pa) ensures !Touched(requests, pa) {
      assert q <= pa < q + size;
    }
  }

  lemma AllClaims(reserves: seq<Range>, requests: seq<Bytes>, metadata: Bytes)
    requires Records(reserves, requests + [metadata])
    ensures forall pa :: 0 <= pa < U64 && pa % PAGE_SIZE == 0 ==> (PageAllocator.Reserved(reserves, pa) <==> Touched(requests, pa) || Touches(metadata, pa))
  {
    hide Touched, PageAllocator.Reserved;
    forall pa | 0 <= pa < U64 && pa % PAGE_SIZE == 0 ensures PageAllocator.Reserved(reserves, pa) <==> Touched(requests, pa) || Touches(metadata, pa) {
      TouchedJoin(requests, [metadata], pa);
      OneTouched(metadata, pa);
    }
  }

  lemma OneTouched(b: Bytes, pa: nat)
    ensures Touched([b], pa) <==> Touches(b, pa)
  {
    assert [b][0] == b;
  }

  lemma UsableIf(rs: seq<Region>, usable: set<nat>, requests: seq<Bytes>, metadata: Bytes, dtb: Bytes, kernel: Bytes, user: Bytes,
                 initrd: seq<Bytes>, memReserve: seq<Bytes>, reservedNodes: seq<Bytes>)
    requires Chained(rs) && forall p :: 0 <= p < Total(rs) ==> (p in usable <==> !Touched(requests + [metadata], AddressOf(rs, p)))
    requires forall pa :: 0 <= pa ==> (Touched(requests, pa) <==> Claimed(dtb, kernel, user, initrd, memReserve, reservedNodes, pa))
    ensures forall p :: 0 <= p < Total(rs) ==> var pa := AddressOf(rs, p);
      (p in usable <==>
         && pa >= PAGE_SIZE && !Touches(dtb, pa) && !Touches(kernel, pa) && !Touches(user, pa) && !Touches(metadata, pa)
         && (forall b :: b in initrd ==> !Touches(b, pa))
         && (forall b :: b in memReserve ==> !Touches(b, pa))
         && (forall b :: b in reservedNodes ==> !Touches(b, pa)))
  {
    hide Touched, Touches, AddressOf;
    forall p | 0 <= p < Total(rs)
      ensures p in usable <==> !Claimed(dtb, kernel, user, initrd, memReserve, reservedNodes, AddressOf(rs, p)) && !Touches(metadata, AddressOf(rs, p))
    {
      TouchedJoin(requests, [metadata], AddressOf(rs, p));
      OneTouched(metadata, AddressOf(rs, p));
    }
  }

  lemma PageMask()
    ensures And(PAGE_SIZE, PAGE_SIZE - 1) == 0
  {
    PageSizePow2();
    MaskIsMod(PAGE_SIZE, 12);
  }

  lemma FirstRegion(rs: seq<Region>)
    requires RegionsOk(rs) && rs != []
    ensures rs[0].base + rs[0].size <= U64_MAX && Total(rs) > 0
  {
  }

  lemma {:induction false} RegionsSum(dt: seq<Bytes>)
    ensures Total(RegionsOf(dt)) == SumPages(dt)
  {
    if dt != [] {
      RegionsSum(dt[..|dt| - 1]);
    }
  }

  /** The allocator over the discovered regions, with every reserved page withheld. */
  method BuildAllocator(rs: seq<Region>, reserves: seq<Range>, ghost requests: seq<Bytes>) returns (a: Allocator)
    requires RegionsOk(rs) && rs != [] && Records(reserves, requests) && |requests| > 0 && requests[0] == Bytes(0, PAGE_SIZE)
    ensures fresh(a) && a.Valid() && a.ready && a.mem.used == {} && a.regions == rs && a.managed == Total(rs)
    ensures forall p :: 0 <= p < a.managed ==> (p in a.usable <==> !Touched(requests, AddressOf(a.regions, p)))
    ensures AllMaximal(a.regions, a.usable, a.mem.free)
    ensures forall p :: 0 <= p < a.managed ==> a.frames[p].kind == NoKind
  {
    hide Records, Touched, AllMaximal, PageAllocator.Reserved, Unreserved;
    NullReserved(reserves, requests);
    a := new Allocator(rs);
    a.BuildInitialState(reserves);
    UsableIsUntouched(rs, reserves, requests);
    a.ready := true;
  }

  lemma NothingRecorded()
    ensures Records([], [])
  {
  }

  lemma NullReserved(reserves: seq<Range>, requests: seq<Bytes>)
    requires Records(reserves, requests) && |requests| > 0 && requests[0] == Bytes(0, PAGE_SIZE)
    ensures PageAllocator.Reserved(reserves, 0)
  {
    assert Touches(requests[0], 0);
  }

  lemma UsableIsUntouched(rs: seq<Region>, reserves: seq<Range>, requests: seq<Bytes>)
    requires RegionsOk(rs) && Records(reserves, requests)
    ensures forall p :: 0 <= p < Total(rs) ==>
      (p in Unreserved(rs, reserves) <==> !Touched(requests, AddressOf(rs, p)))
  {
    forall p | 0 <= p < Total(rs) ensures p in Unreserved(rs, reserves) <==> !Touched(requests, AddressOf(rs, p)) {
      AddressRegion(rs, p, RegionAt(rs, p));
    }
  }
}
