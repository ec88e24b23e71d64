/**
 `fdt_get_memory_regions` of kernel/src/fdt.c: the memory nodes below the root and their address/size pairs.
 */
module FdtMemory {
  import opened ByteSeqs
  import opened FdtTokens
  import opened Fdt
  import opened FdtTree

  datatype Span = Span(base: nat, size: nat)

  /** "memory", "memory@", "device_type", "reg", "#address-cells", "#size-cells" */
  const MEMORY: Name := [109, 101, 109, 111, 114, 121]
  const MEMORY_AT: Name := [109, 101, 109, 111, 114, 121, 64]
  const DEVICE_TYPE: Name := [100, 101, 118, 105, 99, 101, 95, 116, 121, 112, 101]
  const REG: Name := [114, 101, 103]
  const ADDRESS_CELLS: Name := [35, 97, 100, 100, 114, 101, 115, 115, 45, 99, 101, 108, 108, 115]
  const SIZE_CELLS: Name := [35, 115, 105, 122, 101, 45, 99, 101, 108, 108, 115]

  // ----- cells -----

  /** The number spelled by `n` big-endian 32-bit cells. */
  function Cells(s: seq<Byte>, at: nat, n: nat): (v: nat)
    requires at + 4 * n <= |s|
  {
    if n == 0 then 0 else Cells(s, at, n - 1) * 0x1_0000_0000 + Be32(s, at + 4 * (n - 1))
  }

  method ReadCells(s: seq<Byte>, at: nat, n: nat) returns (v: nat)
    requires at + 4 * n <= |s|
    ensures v == Cells(s, at, n)
  {
    hide Be32;
    v := 0;
    for i := 0 to n
      invariant v == Cells(s, at, i)
    {
      v := v * 0x1_0000_0000 + Be32(s, at + 4 * i);
    }
  }

  /** How many pairs of `cells` cells a value holds. */
  function Tuples(data: seq<Byte>, cells: nat): (n: nat)
    requires 2 <= cells <= 4
    ensures n == |data| / (4 * cells)
  {
    if cells == 2 then |data| / 8 else if cells == 3 then |data| / 12 else |data| / 16
  }

  /** Addresses and sizes of one or two cells each. */
  predicate CellsOk(ac: nat, sc: nat) {
    1 <= ac <= 2 && 1 <= sc <= 2
  }

  /** The pairs of a `reg` value from pair `t` on whose size is not zero. */
  function Pairs(data: seq<Byte>, ac: nat, sc: nat, t: nat): (r: seq<Span>)
    requires CellsOk(ac, sc) && t <= Tuples(data, ac + sc)
    decreases Tuples(data, ac + sc) - t
  {
    if t == Tuples(data, ac + sc) then [] else
      PairInside(data, ac + sc, t);
      var at := t * (4 * (ac + sc));
      var base, size := Cells(data, at, ac), Cells(data, at + 4 * ac, sc);
      (if size == 0 then [] else [Span(base, size)]) + Pairs(data, ac, sc, t + 1)
  }

  lemma PairInside(data: seq<Byte>, cells: nat, t: nat)
    requires 2 <= cells <= 4 && t < Tuples(data, cells)
    ensures t * (4 * cells) + 4 * cells <= |data|
  {
    if cells == 2 {
    } else if cells == 3 {
    } else {
    }
  }

  // ----- values as they are written -----

  lemma NamesSpelled()
    ensures MEMORY == Ascii("memory") && MEMORY_AT == Ascii("memory@") && DEVICE_TYPE == Ascii("device_type") && REG == Ascii("reg")
    ensures ADDRESS_CELLS == Ascii("#address-cells") && SIZE_CELLS == Ascii("#size-cells")
  {
  }

  /** What `n` cells can hold. */
  function CellLimit(n: nat): (p: nat)
    ensures p > 0
  {
    if n == 0 then 1 else CellLimit(n - 1) * WORD
  }

  /** A number in `n` big-endian cells. */
  function Words(v: nat, n: nat): (r: seq<Byte>)
    ensures |r| == 4 * n
  {
    if n == 0 then [] else Words(v / WORD, n - 1) + Word(v % WORD)
  }

  lemma {:induction false} CellsRead(s: seq<Byte>, at: nat, v: nat, n: nat)
    requires v < CellLimit(n) && Holds(s, at, Words(v, n))
    ensures at + 4 * n <= |s| && Cells(s, at, n) == v
    decreases n
  {
    hide Be32, Word;
    if n > 0 {
      HoldsParts(s, at, Words(v / WORD, n - 1), Word(v % WORD));
      Quotient(v, n);
      CellsRead(s, at, v / WORD, n - 1);
      WordReads(s, at + 4 * (n - 1), v % WORD);
    }
  }

  lemma Quotient(v: nat, n: nat)
    requires n > 0 && v < CellLimit(n)
    ensures v / WORD < CellLimit(n - 1)
  {
    var p := CellLimit(n - 1);
    assert v < p * WORD;
  }

  /** An address/size pair in `ac` and `sc` cells. */
  function PairBytes(p: Span, ac: nat, sc: nat): (r: seq<Byte>)
    ensures |r| == 4 * ac + 4 * sc
  {
    Words(p.base, ac) + Words(p.size, sc)
  }

  function PairsBytes(ps: seq<Span>, ac: nat, sc: nat): seq<Byte> {
    if ps == [] then [] else PairBytes(ps[0], ac, sc) + PairsBytes(ps[1..], ac, sc)
  }

  predicate Fits(p: Span, ac: nat, sc: nat) {
    p.base < CellLimit(ac) && p.size < CellLimit(sc)
  }

  function NotEmpty(ps: seq<Span>): seq<Span> {
    if ps == [] then [] else (if ps[0].size == 0 then [] else [ps[0]]) + NotEmpty(ps[1..])
  }

  lemma {:induction false} PairsLength(ps: seq<Span>, ac: nat, sc: nat)
    ensures |PairsBytes(ps, ac, sc)| == |ps| * (4 * (ac + sc))
  {
    if ps != [] {
      PairsLength(ps[1..], ac, sc);
      assert |ps| * (4 * (ac + sc)) == 4 * (ac + sc) + (|ps| - 1) * (4 * (ac + sc));
    }
  }

  /** The pairs from number `t` on, behind `t` others. */
  lemma {:induction false} PairsRead(data: seq<Byte>, ps: seq<Span>, ac: nat, sc: nat, t: nat)
    requires CellsOk(ac, sc) && (forall i :: 0 <= i < |ps| ==> Fits(ps[i], ac, sc))
    requires Tuples(data, ac + sc) == t + |ps| && Holds(data, t * (4 * (ac + sc)), PairsBytes(ps, ac, sc))
    ensures Pairs(data, ac, sc, t) == NotEmpty(ps)
    decreases |ps|
  {
    hide Cells, Words, CellLimit, Holds, Tuples;
    if ps != [] {
      var at, c := t * (4 * (ac + sc)), 4 * (ac + sc);
      HoldsParts(data, at, PairBytes(ps[0], ac, sc), PairsBytes(ps[1..], ac, sc));
      HoldsParts(data, at, Words(ps[0].base, ac), Words(ps[0].size, sc));
      CellsRead(data, at, ps[0].base, ac);
      CellsRead(data, at + 4 * ac, ps[0].size, sc);
      assert (t + 1) * c == at + c;
      PairsRead(data, ps[1..], ac, sc, t + 1);
    }
  }

  /** Pairs written in 1 or 2 big-endian words each, and less than a pair behind them, are read back as the non-empty ones. */
  lemma PairsRoundTrip(ps: seq<Span>, ac: nat, sc: nat, rest: seq<Byte>)
    requires CellsOk(ac, sc) && (forall i :: 0 <= i < |ps| ==> Fits(ps[i], ac, sc)) && |rest| < 4 * (ac + sc)
    ensures Pairs(PairsBytes(ps, ac, sc) + rest, ac, sc, 0) == NotEmpty(ps)
  {
    hide Pairs, PairsBytes, NotEmpty, CellLimit;
    var data := PairsBytes(ps, ac, sc) + rest;
    PairsLength(ps, ac, sc);
    WholePairs(|data|, |ps|, ac + sc, |rest|);
    assert data[0..|PairsBytes(ps, ac, sc)|] == PairsBytes(ps, ac, sc);
    PairsRead(data, ps, ac, sc, 0);
  }

  lemma WholePairs(len: nat, n: nat, cells: nat, rest: nat)
    requires 2 <= cells <= 4 && len == n * (4 * cells) + rest && rest < 4 * cells
    ensures len / (4 * cells) == n
  {
    if cells == 2 {
    } else if cells == 3 {
    } else {
    }
  }

  lemma {:induction false} NotEmptyFacts(ps: seq<Span>)
    ensures forall p :: p in NotEmpty(ps) <==> p in ps && p.size != 0
  {
    if ps != [] {
      NotEmptyFacts(ps[1..]);
      assert ps == [ps[0]] + ps[1..];
    }
  }

  // ----- reading -----

  /** Append the pairs; false if more than `max` regions would be needed. */
  method AddPairs(data: seq<Byte>, ac: nat, sc: nat, before: seq<Span>, max: nat) returns (ok: bool, out: seq<Span>)
    requires CellsOk(ac, sc) && |before| <= max
    ensures ok <==> |before + Pairs(data, ac, sc, 0)| <= max
    ensures ok ==> out == before + Pairs(data, ac, sc, 0)
  {
    hide Cells;
    out := before;
    var tuples := Tuples(data, ac + sc);
    var t := 0;
    while t < tuples
      invariant t <= tuples && |out| <= max && out + Pairs(data, ac, sc, t) == before + Pairs(data, ac, sc, 0)
    {
      PairInside(data, ac + sc, t);
      var at := t * (4 * (ac + sc));
      var base := ReadCells(data, at, ac);
      var size := ReadCells(data, at + 4 * ac, sc);
      NextPair(data, ac, sc, t, out);
      if size != 0 {
        if |out| >= max { return false, out; }
        out := out + [Span(base, size)];
      }
      t := t + 1;
    }
    ok := true;
  }

  lemma {:induction false} NextPair(data: seq<Byte>, ac: nat, sc: nat, t: nat, out: seq<Span>)
    requires CellsOk(ac, sc) && t < Tuples(data, ac + sc) && t * (4 * (ac + sc)) + 4 * (ac + sc) <= |data|
    ensures var at := t * (4 * (ac + sc));
            var base, size := Cells(data, at, ac), Cells(data, at + 4 * ac, sc);
            out + Pairs(data, ac, sc, t) == (if size == 0 then out else out + [Span(base, size)]) + Pairs(data, ac, sc, t + 1)
  {
    hide Cells;
  }

  // ----- memory nodes -----

  ghost predicate StartsWith(name: Name, prefix: Name) {
    prefix <= name
  }

  /** `name_starts_with`. */
  method NameStartsWith(s: seq<Byte>, at: nat, prefix: Name) returns (yes: bool)
    requires at <= |s| && StrEnd(s, at) < |s| && 0 !in prefix
    ensures yes <==> StartsWith(s[at..StrEnd(s, at)], prefix)
  {
    ghost var name := s[at..StrEnd(s, at)];
    assert forall j :: 0 <= j < |name| ==> name[j] == s[at + j];
    var i := 0;
    while i < |prefix|
      invariant i <= |prefix| && i <= |name| && name[..i] == prefix[..i]
    {
      assert prefix[i] in prefix;
      if s[at + i] != prefix[i] {
        assert i < |name| ==> name[i] != prefix[i];
        return false;
      }
      i := i + 1;
    }
    return true;
  }

  /** The value of the node's first property of that name. */
  ghost function Value(st: seq<Byte>, str: seq<Byte>, node: nat, name: Name): Found {
    Prop1(st, str, 0, [], node, name)
  }

  /** A device type that starts with "memory" and a NUL. */
  ghost predicate TypeIsMemory(st: seq<Byte>, v: Found) {
    v.Present? && v.len >= 7 && v.dataAt + 7 <= |st| && st[v.dataAt..v.dataAt + 7] == MEMORY + [0]
  }

  /** Memory nodes are children of the root with the name or the device type of memory. */
  ghost predicate IsMemory(st: seq<Byte>, str: seq<Byte>, node: nat, path: seq<Name>) {
    |path| == 1 && (path[0] == MEMORY || StartsWith(path[0], MEMORY_AT) || TypeIsMemory(st, Value(st, str, node, DEVICE_TYPE)))
  }

  ghost function NodeSpans(st: seq<Byte>, str: seq<Byte>, node: nat, ac: nat, sc: nat): seq<Span>
    requires CellsOk(ac, sc)
  {
    var v := Value(st, str, node, REG);
    if v.Present? && v.dataAt + v.len <= |st| then Pairs(st[v.dataAt..v.dataAt + v.len], ac, sc, 0) else []
  }

  /** The regions of the memory nodes of a list of nodes, in order. */
  ghost function Spans(st: seq<Byte>, str: seq<Byte>, nodes: seq<(nat, seq<Name>)>, ac: nat, sc: nat): seq<Span>
    requires CellsOk(ac, sc)
  {
    if nodes == [] then [] else
      (if IsMemory(st, str, nodes[0].0, nodes[0].1) then NodeSpans(st, str, nodes[0].0, ac, sc) else [])
      + Spans(st, str, nodes[1..], ac, sc)
  }

  /** A 32-bit property, or the default if it is absent or too short. */
  ghost function U32Or(st: seq<Byte>, v: Found, or: nat): nat {
    if v.Present? && v.len >= 4 && v.dataAt + 4 <= |st| then Be32(st, v.dataAt) else or
  }

  method GetU32(st: seq<Byte>, str: seq<Byte>, node: nat, name: Name, or: nat) returns (v: nat)
    requires Valid(st, str, 0, 0, false) && 0 !in name && Node1(st, str, 0, node)
    ensures v == U32Or(st, Value(st, str, node, name), or)
  {
    hide Valid, Node1, Prop1;
    var p := GetProp(st, str, node, name);
    if p.Absent? || p.len < 4 { return or; }
    v := Be32(st, p.dataAt);
  }

  /** The test of one child of the root. */
  method CheckMemory(st: seq<Byte>, str: seq<Byte>, node: nat, ghost name: Name) returns (yes: bool)
    requires Valid(st, str, 0, 0, false) && Node1(st, str, 0, node) && node + 4 <= |st| && StrEnd(st, node + 4) < |st|
    requires name == st[node + 4..StrEnd(st, node + 4)]
    ensures yes <==> IsMemory(st, str, node, [name])
  {
    hide Valid, Node1, Prop1, StrEnd;
    yes := NameEq(st, node + 4, MEMORY);
    if !yes { yes := NameStartsWith(st, node + 4, MEMORY_AT); }
    var p := GetProp(st, str, node, DEVICE_TYPE);
    if p.Present? && p.len >= 7 {
      var same := IsMemoryString(st[p.dataAt..p.dataAt + 7]);
      if same { yes := true; }
    }
  }

  /** `name_eq` with "memory" on the first seven bytes of a value. */
  method IsMemoryString(data: seq<Byte>) returns (yes: bool)
    requires |data| == 7
    ensures yes <==> data == MEMORY + [0]
  {
    var i := 0;
    while i < 6
      invariant i <= 6 && data[..i] == MEMORY[..i]
    {
      if data[i] != MEMORY[i] {
        assert data[i] != (MEMORY + [0])[i];
        return false;
      }
      i := i + 1;
    }
    yes := data[6] == 0;
    assert yes ==> data == data[..6] + [0];
    assert (MEMORY + [0])[6] == 0 && MEMORY[..6] == MEMORY;
  }

  /** The pairs of one memory node. */
  method AddNode(st: seq<Byte>, str: seq<Byte>, node: nat, ac: nat, sc: nat, before: seq<Span>, max: nat) returns (ok: bool, out: seq<Span>)
    requires Valid(st, str, 0, 0, false) && Node1(st, str, 0, node) && CellsOk(ac, sc) && |before| <= max
    ensures ok <==> |before + NodeSpans(st, str, node, ac, sc)| <= max
    ensures ok ==> out == before + NodeSpans(st, str, node, ac, sc)
  {
    hide Valid, Node1, Prop1, Pairs;
    var p := GetProp(st, str, node, REG);
    if p.Absent? {
      assert before + [] == before;
      return true, before;
    }
    ok, out := AddPairs(st[p.dataAt..p.dataAt + p.len], ac, sc, before, max);
  }

  /** The regions of the nodes from `cur` on. */
  ghost function SpansAt(st: seq<Byte>, str: seq<Byte>, cur: nat, stack: seq<Name>, ac: nat, sc: nat): seq<Span>
    requires cur <= |st| && CellsOk(ac, sc)
  {
    Spans(st, str, Paths(Toks(st, str, cur), stack), ac, sc)
  }

  lemma SpansStep(st: seq<Byte>, str: seq<Byte>, cur: nat, stack: seq<Name>, ac: nat, sc: nat, out: seq<Span>)
    requires cur <= |st| && CellsOk(ac, sc)
    ensures var r, now := Decode(st, str, cur), out + SpansAt(st, str, cur, stack, ac, sc);
            && (r.Begin? && IsMemory(st, str, cur, (stack + [r.name])[1..]) ==>
                  now == out + NodeSpans(st, str, cur, ac, sc) + SpansAt(st, str, r.next, stack + [r.name], ac, sc))
            && (r.Begin? && !IsMemory(st, str, cur, (stack + [r.name])[1..]) ==> now == out + SpansAt(st, str, r.next, stack + [r.name], ac, sc))
            && (r.EndNode? ==> now == out + SpansAt(st, str, r.next, Pop(stack), ac, sc))
            && (r.Prop? || r.Nop? ==> now == out + SpansAt(st, str, r.next, stack, ac, sc))
            && (r.End? || r.Invalid? ==> now == out)
  {
    hide Decode, IsMemory, NodeSpans;
    var r, toks := Decode(st, str, cur), Toks(st, str, cur);
    if !r.End? && !r.Invalid? { assert toks[1..] == Toks(st, str, r.next); }
    if r.Begin? {
      var nodes := Paths(toks, stack);
      assert nodes[1..] == Paths(toks[1..], stack + [r.name]);
    }
  }

  /** A validated blob has a root. */
  lemma RootFound(st: seq<Byte>, str: seq<Byte>)
    requires Valid(st, str, 0, 0, false)
    ensures Wanted(st, str, 0, [], []) >= 0 && Node1(st, str, 0, Wanted(st, str, 0, [], []))
  {
    RootFrom(st, str, 0);
  }

  lemma {:induction false} RootFrom(st: seq<Byte>, str: seq<Byte>, cur: nat)
    requires cur <= |st| && Valid(st, str, cur, 0, false)
    ensures Wanted(st, str, cur, [], []) >= cur && Node1(st, str, cur, Wanted(st, str, cur, [], []))
    decreases |st| - cur
  {
    hide Decode, Toks, Paths, FirstNode, HasNode;
    WantedStep(st, str, cur, [], []);
    var r := Decode(st, str, cur);
    if r.Begin? {
      assert ([] + [r.name])[1..] == [];
      Node1Step(st, str, cur, cur);
    } else {
      RootFrom(st, str, r.next);
      Node1Step(st, str, cur, Wanted(st, str, r.next, [], []));
    }
  }

  method WalkMemory(st: seq<Byte>, str: seq<Byte>, ac: nat, sc: nat, max: nat) returns (ok: bool, out: seq<Span>)
    requires Valid(st, str, 0, 0, false) && CellsOk(ac, sc)
    ensures ok <==> |SpansAt(st, str, 0, [], ac, sc)| <= max
    ensures ok ==> out == SpansAt(st, str, 0, [], ac, sc)
  {
    hide Be32, Decode, StrEnd, Toks, Paths, Valid, Spans, IsMemory, NodeSpans, HasNode;
    out := [];
    var cur, depth := 0, -1;
    ghost var stack: seq<Name>, root := [], false;
    while cur < |st|
      invariant cur <= |st| && depth == |stack| - 1 && |out| <= max && (cur < |st| ==> Valid(st, str, cur, |stack|, root))
      invariant out + SpansAt(st, str, cur, stack, ac, sc) == SpansAt(st, str, 0, [], ac, sc)
      invariant forall off {:trigger Node1(st, str, cur, off)} :: off >= 0 && Node1(st, str, cur, off) ==> Node1(st, str, 0, off)
      decreases |st| - cur
    {
      TokenInside(st, str, cur, |stack|, root);
      ValidStep(st, str, cur, |stack|, root);
      SpansStep(st, str, cur, stack, ac, sc, out);
      NodesBehind(st, str, cur);
      var token := Be32(st, cur);
      if token == BEGIN_NODE {
        var n := StrLen(st, cur + 4);
        ghost var name := st[cur + 4..cur + 4 + n];
        depth := depth + 1;
        var memory := false;
        if depth == 1 {
          memory := CheckMemory(st, str, cur, name);
          assert (stack + [name])[1..] == [name];
        }
        OnlyChildren(st, str, cur, stack, name);
        if memory {
          var fits, more := AddNode(st, str, cur, ac, sc, out, max);
          if !fits { return false, out; }
          out := more;
        }
        stack, root := stack + [name], true;
        cur := cur + 4 + Align4(n + 1);
      } else if token == END_NODE {
        depth := depth - 1;
        stack := Pop(stack);
        cur := cur + 4;
      } else if token == PROP {
        cur := cur + 12 + Align4(Be32(st, cur + 4));
      } else if token == NOP {
        cur := cur + 4;
      } else {
        return true, out;
      }
    }
    SpansStep(st, str, |st|, stack, ac, sc, out);
    NothingAtEnd(st, str);
    ok := true;
  }

  lemma OnlyChildren(st: seq<Byte>, str: seq<Byte>, node: nat, stack: seq<Name>, name: Name)
    ensures |stack| != 1 ==> !IsMemory(st, str, node, (stack + [name])[1..])
  {
  }

  lemma NodesBehind(st: seq<Byte>, str: seq<Byte>, cur: nat)
    requires cur <= |st|
    ensures var r := Decode(st, str, cur);
            && (r.Begin? ==> Node1(st, str, cur, cur))
            && (!r.End? && !r.Invalid? ==> forall off: nat {:trigger Node1(st, str, r.next, off)} :: Node1(st, str, r.next, off) ==> Node1(st, str, cur, off))
  {
    hide Decode, Node1;
    Node1Step(st, str, cur, cur);
    var r := Decode(st, str, cur);
    if !r.End? && !r.Invalid? {
      forall off: nat | Node1(st, str, r.next, off) ensures Node1(st, str, cur, off) { Node1Step(st, str, cur, off); }
    }
  }

  // ----- the same, of the tree -----

  predicate TreeIsMemory(t: Tree, str: seq<Byte>) {
    var device := OwnValue(t.content, str, DEVICE_TYPE);
    t.name == MEMORY || MEMORY_AT <= t.name || (device.Datum? && MEMORY + [0] <= device.bytes)
  }

  function TreeSpans(t: Tree, str: seq<Byte>, ac: nat, sc: nat): seq<Span>
    requires CellsOk(ac, sc)
  {
    var reg := OwnValue(t.content, str, REG);
    if reg.Datum? then Pairs(reg.bytes, ac, sc, 0) else []
  }

  /** The regions of the memory nodes among the children of a node, in order. */
  function ChildSpans(cs: seq<Content>, str: seq<Byte>, ac: nat, sc: nat): seq<Span>
    requires CellsOk(ac, sc)
  {
    if cs == [] then [] else
      (if cs[0].Child? && TreeIsMemory(cs[0].node, str) then TreeSpans(cs[0].node, str, ac, sc) else []) + ChildSpans(cs[1..], str, ac, sc)
  }

  function TreeU32(t: Tree, str: seq<Byte>, name: Name, or: nat): nat {
    var v := OwnValue(t.content, str, name);
    if v.Datum? && |v.bytes| >= 4 then Be32(v.bytes, 0) else or
  }

  lemma {:induction false} SpansJoin(st: seq<Byte>, str: seq<Byte>, a: seq<(nat, seq<Name>)>, b: seq<(nat, seq<Name>)>, ac: nat, sc: nat)
    requires CellsOk(ac, sc)
    ensures Spans(st, str, a + b, ac, sc) == Spans(st, str, a, ac, sc) + Spans(st, str, b, ac, sc)
    decreases |a|
  {
    hide IsMemory, NodeSpans;
    if a == [] {
      assert a + b == b;
    } else {
      assert (a + b)[1..] == a[1..] + b;
      SpansJoin(st, str, a[1..], b, ac, sc);
    }
  }

  lemma {:induction false} NoSpans(st: seq<Byte>, str: seq<Byte>, nodes: seq<(nat, seq<Name>)>, ac: nat, sc: nat)
    requires CellsOk(ac, sc) && forall n :: n in nodes ==> |n.1| != 1
    ensures Spans(st, str, nodes, ac, sc) == []
    decreases |nodes|
  {
    if nodes != [] {
      assert nodes[0] in nodes;
      NoSpans(st, str, nodes[1..], ac, sc);
    }
  }

  // Nodes below others have paths of more components.

  lemma {:induction false} TreeDeep(t: Tree, str: seq<Byte>, depth: nat, at: nat, stack: seq<Name>)
    requires Encodable(t, str, depth)
    ensures forall n :: n in TreePaths(t, str, depth, at, stack) ==> |n.1| >= |stack|
    decreases t, 1
  {
    AllDeep(t.content, str, depth + 1, at + |EncodeBegin(t.name)|, stack + [t.name]);
  }

  lemma {:induction false} AllDeep(cs: seq<Content>, str: seq<Byte>, depth: nat, at: nat, stack: seq<Name>)
    requires forall i :: 0 <= i < |cs| ==> ContentOk(cs[i], str, depth)
    ensures forall n :: n in AllPaths(cs, str, depth, at, stack) ==> |n.1| >= |stack|
    decreases cs, 0
  {
    if cs != [] {
      ContentDeep(cs[0], str, depth, at, stack);
      AllDeep(cs[1..], str, depth, at + |EncodeContent(cs[0], str, depth)|, stack);
    }
  }

  lemma {:induction false} ContentDeep(c: Content, str: seq<Byte>, depth: nat, at: nat, stack: seq<Name>)
    requires ContentOk(c, str, depth)
    ensures forall n :: n in ContentPaths(c, str, depth, at, stack) ==> |n.1| >= |stack|
    decreases c, 0
  {
    match c
    case Property(_, _) =>
    case Child(node) => TreeDeep(node, str, depth, at, stack);
    case Gap =>
  }

  /** A node of the tree is a memory node by its own name and content, and its regions are those of its own `reg`. */
  lemma NodeAgrees(st: seq<Byte>, str: seq<Byte>, t: Tree, before: nat, after: nat, sub: Tree, sd: nat, sa: nat, ac: nat, sc: nat)
    requires Encodable(t, str, 0) && BlockMatches(st, str, t, before, after) && TreeHas(t, str, 0, 4 * before, sub, sd, sa) && CellsOk(ac, sc)
    ensures IsMemory(st, str, sa, [sub.name]) <==> TreeIsMemory(sub, str)
    ensures NodeSpans(st, str, sa, ac, sc) == TreeSpans(sub, str, ac, sc)
  {
    hide Encodable, BlockMatches, TreeHas, Prop1, OwnValue, Pairs;
    PropAgrees(st, str, t, before, after, sub, sd, sa, DEVICE_TYPE);
    PropAgrees(st, str, t, before, after, sub, sd, sa, REG);
    TypeAgrees(st, Prop1(st, str, 0, [], sa, DEVICE_TYPE));
  }

  lemma TypeAgrees(st: seq<Byte>, v: Found)
    requires v.Present? <==> Delivered(st, v) != NoDatum
    ensures TypeIsMemory(st, v) <==> Delivered(st, v).Datum? && MEMORY + [0] <= Delivered(st, v).bytes
  {
    if v.Present? && v.len >= 7 {
      var data := Delivered(st, v).bytes;
      assert data[..7] == st[v.dataAt..v.dataAt + 7];
    }
  }

  lemma U32Agrees(st: seq<Byte>, v: Found, or: nat)
    requires v.Present? <==> Delivered(st, v) != NoDatum
    ensures U32Or(st, v, or) == var d := Delivered(st, v); if d.Datum? && |d.bytes| >= 4 then Be32(d.bytes, 0) else or
  {
  }

  /** The children of the root from content `cs` on. */
  lemma {:induction false} ChildrenAgree(st: seq<Byte>, str: seq<Byte>, t: Tree, before: nat, after: nat, cs: seq<Content>, at: nat, ac: nat, sc: nat)
    requires Encodable(t, str, 0) && BlockMatches(st, str, t, before, after) && CellsOk(ac, sc)
    requires forall i :: 0 <= i < |cs| ==> ContentOk(cs[i], str, 1)
    requires forall sub, sd, sa :: AllHas(cs, str, 1, at, sub, sd, sa) ==> TreeHas(t, str, 0, 4 * before, sub, sd, sa)
    ensures Spans(st, str, AllPaths(cs, str, 1, at, [t.name]), ac, sc) == ChildSpans(cs, str, ac, sc)
    decreases |cs|
  {
    hide Encodable, BlockMatches, TreeHas, ContentPaths, IsMemory, NodeSpans, TreeIsMemory, TreeSpans, ContentOk, EncodeContent, Spans;
    if cs == [] {
      NoSpans(st, str, [], ac, sc);
    } else {
      var next := at + |EncodeContent(cs[0], str, 1)|;
      ChildrenAgree(st, str, t, before, after, cs[1..], next, ac, sc);
      SpansJoin(st, str, ContentPaths(cs[0], str, 1, at, [t.name]), AllPaths(cs[1..], str, 1, next, [t.name]), ac, sc);
      if cs[0].Child? {
        ChildHas(cs, str, at);
        NodeAgrees(st, str, t, before, after, cs[0].node, 1, at, ac, sc);
      }
      ChildAgrees(st, str, cs[0], t.name, at, ac, sc);
    }
  }

  lemma ChildHas(cs: seq<Content>, str: seq<Byte>, at: nat)
    requires cs != [] && (forall i :: 0 <= i < |cs| ==> ContentOk(cs[i], str, 1)) && cs[0].Child?
    ensures AllHas(cs, str, 1, at, cs[0].node, 1, at)
  {
  }

  lemma ChildAgrees(st: seq<Byte>, str: seq<Byte>, c: Content, root: Name, at: nat, ac: nat, sc: nat)
    requires ContentOk(c, str, 1) && CellsOk(ac, sc)
    ensures c.Child? ==> Spans(st, str, ContentPaths(c, str, 1, at, [root]), ac, sc)
                         == if IsMemory(st, str, at, [c.node.name]) then NodeSpans(st, str, at, ac, sc) else []
    ensures !c.Child? ==> Spans(st, str, ContentPaths(c, str, 1, at, [root]), ac, sc) == []
  {
    hide IsMemory, NodeSpans, AllPaths;
    if c.Child? {
      var stack := [root, c.node.name];
      assert [root] + [c.node.name] == stack && stack[1..] == [c.node.name];
      var below := AllPaths(c.node.content, str, 2, at + |EncodeBegin(c.node.name)|, stack);
      AllDeep(c.node.content, str, 2, at + |EncodeBegin(c.node.name)|, stack);
      NoSpans(st, str, below, ac, sc);
      assert ([(at, [c.node.name])] + below)[1..] == below;
    }
  }

  /**
   In a block that encodes a tree: the root is found, the cell counts are those of the root's own properties, and
   the regions are the `reg` pairs of the root's memory children, in order.
   */
  lemma MemoryAgrees(st: seq<Byte>, str: seq<Byte>, t: Tree, before: nat, after: nat, ac: nat, sc: nat)
    requires Encodable(t, str, 0) && BlockMatches(st, str, t, before, after) && CellsOk(ac, sc)
    ensures Wanted(st, str, 0, [], []) == 4 * before
    ensures U32Or(st, Value(st, str, 4 * before, ADDRESS_CELLS), 2) == TreeU32(t, str, ADDRESS_CELLS, 2)
    ensures U32Or(st, Value(st, str, 4 * before, SIZE_CELLS), 2) == TreeU32(t, str, SIZE_CELLS, 2)
    ensures SpansAt(st, str, 0, [], ac, sc) == ChildSpans(t.content, str, ac, sc)
  {
    hide BlockMatches, Prop1, OwnValue, Pairs, IsMemory, NodeSpans, U32Or, ChildSpans, AllPaths;
    var inside := 4 * before + |EncodeBegin(t.name)|;
    RootPaths(t, str, 4 * before);
    PathAgrees(st, str, t, before, after, []);
    PropAgrees(st, str, t, before, after, t, 0, 4 * before, ADDRESS_CELLS);
    PropAgrees(st, str, t, before, after, t, 0, 4 * before, SIZE_CELLS);
    U32Agrees(st, Value(st, str, 4 * before, ADDRESS_CELLS), 2);
    U32Agrees(st, Value(st, str, 4 * before, SIZE_CELLS), 2);
    BlockReads(st, str, t, before, after);
    SpansJoin(st, str, [(4 * before, [])], AllPaths(t.content, str, 1, inside, [t.name]), ac, sc);
    NoSpans(st, str, [(4 * before, [])], ac, sc);
    ChildrenAgree(st, str, t, before, after, t.content, inside, ac, sc);
  }

  lemma RootPaths(t: Tree, str: seq<Byte>, at: nat)
    requires Encodable(t, str, 0)
    ensures TreePaths(t, str, 0, at, []) == [(at, [])] + AllPaths(t.content, str, 1, at + |EncodeBegin(t.name)|, [t.name])
    ensures FirstNode(TreePaths(t, str, 0, at, []), []) == at
  {
    hide AllPaths;
    assert [] + [t.name] == [t.name] && [t.name][1..] == [];
  }

  /**
   `fdt_get_memory_regions`. Whatever tree the block encodes (there is one), the result are the `reg` pairs of the
   memory nodes below its root, in order, or failure if the root's cell counts are unusual or there are more regions than room.
   */
  method GetMemoryRegions(st: seq<Byte>, str: seq<Byte>, max: nat) returns (ok: bool, out: seq<Span>)
    requires Valid(st, str, 0, 0, false)
    ensures forall t, before, after :: Encodable(t, str, 0) && BlockMatches(st, str, t, before, after) ==> MemoryResult(t, str, max, ok, out)
  {
    hide Valid, Toks, Paths, Prop1, Node1, U32Or, Wanted, BlockMatches, Encodable, ChildSpans, SpansAt, TreeU32;
    out := [];
    var root := FindPath(st, str, []);
    RootFound(st, str);
    var ac := GetU32(st, str, root, ADDRESS_CELLS, 2);
    var sc := GetU32(st, str, root, SIZE_CELLS, 2);
    forall t, before, after | Encodable(t, str, 0) && BlockMatches(st, str, t, before, after)
      ensures ac == TreeU32(t, str, ADDRESS_CELLS, 2) && sc == TreeU32(t, str, SIZE_CELLS, 2)
      ensures CellsOk(ac, sc) ==> SpansAt(st, str, 0, [], ac, sc) == ChildSpans(t.content, str, ac, sc)
    {
      MemoryAgrees(st, str, t, before, after, 1, 1);
      if CellsOk(ac, sc) { MemoryAgrees(st, str, t, before, after, ac, sc); }
    }
    if max == 0 || (ac != 1 && ac != 2) || (sc != 1 && sc != 2) { return false, []; }
    ok, out := WalkMemory(st, str, ac, sc, max);
  }

  /** What the caller gets for a tree. */
  ghost predicate MemoryResult(t: Tree, str: seq<Byte>, max: nat, ok: bool, out: seq<Span>) {
    var ac, sc := TreeU32(t, str, ADDRESS_CELLS, 2), TreeU32(t, str, SIZE_CELLS, 2);
    && (ok <==> max > 0 && CellsOk(ac, sc) && |ChildSpans(t.content, str, ac, sc)| <= max)
    && (ok ==> out == ChildSpans(t.content, str, ac, sc))
  }
}
