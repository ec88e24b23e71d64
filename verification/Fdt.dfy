/**
 The device-tree reader of kernel/src/fdt.c. The validator checks every bound; the walkers check none,
 and are verified to stay inside the structure and strings blocks because validation succeeded.
 */
module Fdt {
  import opened ByteSeqs
  import opened FdtTokens

  // ----- strings -----

  /** `str_len`, which relies on a terminator being there. */
  method StrLen(s: seq<Byte>, at: nat) returns (n: nat)
    requires at <= |s| && StrEnd(s, at) < |s|
    ensures at + n == StrEnd(s, at)
  {
    n := 0;
    while s[at + n] != 0
      invariant at + n <= StrEnd(s, at) == StrEnd(s, at + n) < |s|
      decreases |s| - n
    {
      n := n + 1;
    }
  }

  /** `name_eq`: the string at `at` is exactly `want`. */
  method NameEq(s: seq<Byte>, at: nat, want: Name) returns (yes: bool)
    requires at <= |s| && StrEnd(s, at) < |s| && 0 !in want
    ensures yes <==> s[at..StrEnd(s, at)] == want
  {
    ghost var name := s[at..StrEnd(s, at)];
    assert forall j :: 0 <= j < |name| ==> name[j] == s[at + j] && name[j] in name;
    var i := 0;
    while i < |want|
      invariant i <= |want| && i <= |name| && name[..i] == want[..i]
    {
      if s[at + i] != want[i] {
        assert i < |name| ==> name[i] != want[i];
        return false;
      }
      assert want[i] in want;
      i := i + 1;
    }
    yes := s[at + i] == 0;
    assert want[..i] == want;
  }

  // ----- validation -----

  /** The name scan of the validator: length up to the NUL, or to the end of the block. */
  method ScanName(s: seq<Byte>, at: nat) returns (n: nat)
    requires at <= |s|
    ensures at + n == StrEnd(s, at)
  {
    n := 0;
    while at + n < |s| && s[at + n] != 0
      invariant at + n <= |s| && StrEnd(s, at) == StrEnd(s, at + n)
    {
      n := n + 1;
    }
  }

  /** One token of the validator. */
  method ReadToken(st: seq<Byte>, str: seq<Byte>, pos: nat) returns (r: Item)
    requires pos + 4 <= |st|
    ensures r == Decode(st, str, pos)
  {
    hide Be32;
    var token, cur := Be32(st, pos), pos + 4;
    if token == BEGIN_NODE {
      var n := ScanName(st, cur);
      if cur + n == |st| || Align4(n + 1) > |st| - cur { return Invalid; }
      r := Begin(st[cur..cur + n], cur + Align4(n + 1));
    } else if token == END_NODE {
      r := EndNode(cur);
    } else if token == PROP {
      if |st| - cur < 8 { return Invalid; }
      var len, nameoff := Be32(st, cur), Be32(st, cur + 4);
      cur := cur + 8;
      if len > 0x7fff_ffff || Align4(len) > |st| - cur || nameoff >= |str| { return Invalid; }
      var n := ScanName(str, nameoff);
      if n == |str| - nameoff { return Invalid; }
      r := Prop(str[nameoff..nameoff + n], cur, len, cur + Align4(len));
    } else if token == NOP {
      r := Nop(cur);
    } else if token == FdtTokens.END {
      r := Item.End;
    } else {
      r := Invalid;
    }
  }

  /** The token loop of `fdt_check_header`. */
  method CheckTokens(st: seq<Byte>, str: seq<Byte>) returns (ok: bool)
    ensures ok <==> Valid(st, str, 0, 0, false)
  {
    hide Decode;
    var cur, depth, root := 0, 0, false;
    while |st| - cur >= 4
      invariant cur <= |st| && 0 <= depth
      invariant Valid(st, str, 0, 0, false) <==> Valid(st, str, cur, depth, root)
      decreases |st| - cur
    {
      var r := ReadToken(st, str, cur);
      match r {
        case Begin(_, next) =>
          if depth == 0 && root { return false; }
          root := true;
          depth := depth + 1;
          if depth > MAX_DEPTH { return false; }
          cur := next;
        case EndNode(next) =>
          if depth == 0 { return false; }
          depth := depth - 1;
          cur := next;
        case Prop(_, _, _, next) =>
          if depth == 0 { return false; }
          cur := next;
        case Nop(next) => cur := next;
        case End => return root && depth == 0;
        case Invalid => return false;
      }
    }
    TooShort(st, str, cur);
    return false;
  }

  lemma TooShort(st: seq<Byte>, str: seq<Byte>, pos: nat)
    requires pos <= |st| < pos + 4
    ensures Decode(st, str, pos) == Invalid
  {
  }

  // ----- header -----

  const MAGIC: nat := 0xd00d_feed
  const HEADER: nat := 40

  /** Header word `i`. */
  function Field(fdt: seq<Byte>, i: nat): nat
    requires i < 10 && |fdt| >= HEADER
  {
    Be32(fdt, 4 * i)
  }

  /** What the boot interface owes: the header is readable, and so is a blob of the declared size. */
  ghost predicate Readable(fdt: seq<Byte>) {
    |fdt| >= HEADER && (Field(fdt, 0) == MAGIC ==> Field(fdt, 1) <= |fdt|)
  }

  /** The blocks and the reservation map lie inside the declared size, aligned as the format demands. */
  ghost predicate HeaderOk(fdt: seq<Byte>)
    requires |fdt| >= HEADER
  {
    var total, off, strOff, rsv, strSize, size := Field(fdt, 1), Field(fdt, 2), Field(fdt, 3), Field(fdt, 4), Field(fdt, 8), Field(fdt, 9);
    && Field(fdt, 0) == MAGIC && HEADER <= total <= 0x7fff_ffff
    && HEADER <= off && off % 4 == 0 && off + size <= total
    && HEADER <= strOff && strOff + strSize <= total
    && HEADER <= rsv && rsv % 8 == 0 && rsv + 16 <= total
  }

  /** The structure block. */
  function Struct(fdt: seq<Byte>): seq<Byte>
    requires |fdt| >= HEADER && Field(fdt, 2) + Field(fdt, 9) <= |fdt|
  {
    fdt[Field(fdt, 2)..Field(fdt, 2) + Field(fdt, 9)]
  }

  function Strings(fdt: seq<Byte>): seq<Byte>
    requires |fdt| >= HEADER && Field(fdt, 3) + Field(fdt, 8) <= |fdt|
  {
    fdt[Field(fdt, 3)..Field(fdt, 3) + Field(fdt, 8)]
  }

  /** What validation establishes. */
  ghost predicate Checked(fdt: seq<Byte>) {
    |fdt| >= HEADER && HeaderOk(fdt) && Field(fdt, 1) <= |fdt| && Valid(Struct(fdt), Strings(fdt), 0, 0, false)
  }

  /** `fdt_check_header`; `aligned` says whether the blob's address is a multiple of four. */
  method CheckHeader(fdt: seq<Byte>, aligned: bool) returns (ok: bool)
    requires Readable(fdt)
    ensures ok <==> aligned && Checked(fdt)
  {
    hide Be32, Valid;
    if !aligned || Field(fdt, 0) != MAGIC { return false; }
    var total, off, size := Field(fdt, 1), Field(fdt, 2), Field(fdt, 9);
    var strOff, strSize, rsv := Field(fdt, 3), Field(fdt, 8), Field(fdt, 4);
    if total < HEADER || total > 0x7fff_ffff || off < HEADER || off % 4 != 0 || off > total || size > total - off
       || strOff < HEADER || strOff > total || strSize > total - strOff
       || rsv < HEADER || rsv % 8 != 0 || rsv > total || total - rsv < 16 {
      return false;
    }
    ok := CheckTokens(fdt[off..off + size], fdt[strOff..strOff + strSize]);
  }

  // ----- walkers -----

  /** In a validated stream the token at `cur` and everything it refers to lie inside the blocks. */
  lemma TokenInside(st: seq<Byte>, str: seq<Byte>, cur: nat, depth: int, root: bool)
    requires cur <= |st| && Valid(st, str, cur, depth, root)
    ensures cur + 4 <= |st|
    ensures var token, at := Be32(st, cur), cur + 4;
            && (token == BEGIN_NODE || token == END_NODE || token == PROP || token == NOP || token == FdtTokens.END)
            && (token == BEGIN_NODE ==> StrEnd(st, at) < |st| && at + Align4(StrEnd(st, at) - at + 1) <= |st|)
            && (token == BEGIN_NODE ==> Decode(st, str, cur) == Begin(st[at..StrEnd(st, at)], at + Align4(StrEnd(st, at) - at + 1)))
            && (token == END_NODE ==> Decode(st, str, cur) == EndNode(at))
            && (token == PROP ==> at + 8 <= |st| && Be32(st, at + 4) < |str| && StrEnd(str, Be32(st, at + 4)) < |str|)
            && (token == PROP ==> var len, off := Be32(st, at), Be32(st, at + 4);
                  Decode(st, str, cur) == Prop(str[off..StrEnd(str, off)], at + 8, len, at + 8 + Align4(len)))
            && (token == NOP ==> Decode(st, str, cur) == Nop(at))
            && (token == FdtTokens.END ==> Decode(st, str, cur) == Item.End)
  {
    hide Be32;
  }

  /** Length of the longest common prefix. */
  function Common(a: seq<Name>, b: seq<Name>): (n: nat)
    ensures n <= |a| && n <= |b| && forall i :: 0 <= i < n ==> a[i] == b[i]
    ensures n < |a| && n < |b| ==> a[n] != b[n]
  {
    if a == [] || b == [] || a[0] != b[0] then 0 else
      var n := Common(a[1..], b[1..]);
      assert forall i :: 0 < i <= n ==> a[i] == a[1..][i - 1] && b[i] == b[1..][i - 1];
      n + 1
  }

  /** Descending into a child. */
  lemma {:induction false} CommonPush(a: seq<Name>, b: seq<Name>, x: Name)
    ensures Common(a + [x], b) == if Common(a, b) == |a| && |a| < |b| && b[|a|] == x then |a| + 1 else Common(a, b)
  {
    hide Common;
    var n, c := Common(a, b), a + [x];
    assert c[|a|] == x && forall i :: 0 <= i < |a| ==> c[i] == a[i];
    if n == |a| && |a| < |b| && b[|a|] == x {
      CommonIs(c, b, n + 1);
    } else {
      CommonIs(c, b, n);
    }
  }

  lemma {:induction false} CommonPop(a: seq<Name>, b: seq<Name>)
    requires a != []
    ensures Common(Pop(a), b) == if Common(a, b) == |a| then |a| - 1 else Common(a, b)
  {
    hide Common;
    var n := Common(a, b);
    CommonIs(Pop(a), b, if n == |a| then n - 1 else n);
  }

  lemma {:induction false} CommonIs(a: seq<Name>, b: seq<Name>, n: nat)
    requires n <= |a| && n <= |b| && (forall i :: 0 <= i < n ==> a[i] == b[i]) && (n < |a| && n < |b| ==> a[n] != b[n])
    ensures Common(a, b) == n
  {
    if n > 0 { CommonIs(a[1..], b[1..], n - 1); }
  }

  /** What the tokens from `cur` on mean for a path lookup inside the open nodes `stack`. */
  ghost function Wanted(st: seq<Byte>, str: seq<Byte>, cur: nat, stack: seq<Name>, comps: seq<Name>): int
    requires cur <= |st|
  {
    FirstNode(Paths(Toks(st, str, cur), stack), comps)
  }

  /** A node that opens is the one wanted, or the search goes on inside it. */
  ghost function Chosen(st: seq<Byte>, str: seq<Byte>, cur: nat, name: Name, next: nat, stack: seq<Name>, comps: seq<Name>): int
    requires next <= |st|
  {
    if (stack + [name])[1..] == comps then cur else Wanted(st, str, next, stack + [name], comps)
  }

  lemma WantedStep(st: seq<Byte>, str: seq<Byte>, cur: nat, stack: seq<Name>, comps: seq<Name>)
    requires cur <= |st|
    ensures var r := Decode(st, str, cur);
            && (r.Begin? ==> Wanted(st, str, cur, stack, comps) == Chosen(st, str, cur, r.name, r.next, stack, comps))
            && (r.EndNode? ==> Wanted(st, str, cur, stack, comps) == Wanted(st, str, r.next, Pop(stack), comps))
            && (r.Prop? || r.Nop? ==> Wanted(st, str, cur, stack, comps) == Wanted(st, str, r.next, stack, comps))
            && (r.End? || r.Invalid? ==> Wanted(st, str, cur, stack, comps) == -1)
  {
    hide Decode;
    var r, toks := Decode(st, str, cur), Toks(st, str, cur);
    if !r.End? && !r.Invalid? { assert toks[1..] == Toks(st, str, r.next); }
  }

  lemma ValidStep(st: seq<Byte>, str: seq<Byte>, cur: nat, depth: int, root: bool)
    requires cur <= |st| && Valid(st, str, cur, depth, root)
    ensures var r := Decode(st, str, cur);
            && (r.Begin? ==> Valid(st, str, r.next, depth + 1, true))
            && (r.EndNode? ==> depth != 0 && Valid(st, str, r.next, depth - 1, root))
            && (r.Prop? || r.Nop? ==> Valid(st, str, r.next, depth, root))
  {
  }

  /** `fdt_path_offset` after the path was split and the blob validated. */
  method FindPath(st: seq<Byte>, str: seq<Byte>, comps: seq<Name>) returns (node: int)
    requires Valid(st, str, 0, 0, false) && forall i :: 0 <= i < |comps| ==> 0 !in comps[i]
    ensures node == Wanted(st, str, 0, [], comps)
  {
    hide Be32, Decode, StrEnd, Common, Paths, Toks, FirstNode, Valid;
    node := -1;
    var cur, depth, matched := 0, -1, -1;
    ghost var stack: seq<Name>, root := [], false;
    while cur < |st|
      invariant cur <= |st| && depth == |stack| - 1 && (cur < |st| ==> Valid(st, str, cur, |stack|, root))
      invariant matched == if stack == [] then -1 else Common(stack[1..], comps)
      invariant Wanted(st, str, cur, stack, comps) == Wanted(st, str, 0, [], comps) && node == -1
      decreases |st| - cur
    {
      TokenInside(st, str, cur, |stack|, root);
      WantedStep(st, str, cur, stack, comps);
      ValidStep(st, str, cur, |stack|, root);
      var token := Be32(st, cur);
      if token == BEGIN_NODE {
        var at := cur + 4;
        var n := StrLen(st, at);
        ghost var name := st[at..at + n];
        BeginMatch(stack, name, comps);
        depth := depth + 1;
        if depth == 0 {
          matched := 0;
          if |comps| == 0 { return cur; }
        } else if matched == depth - 1 && depth <= |comps| {
          var same := NameEq(st, at, comps[depth - 1]);
          if same {
            matched := depth;
            if matched == |comps| { return cur; }
          }
        }
        stack := stack + [name];
        root := true;
        cur := at + Align4(n + 1);
      } else if token == END_NODE {
        EndMatch(stack, comps);
        if matched == depth { matched := depth - 1; }
        depth := depth - 1;
        stack := Pop(stack);
        cur := cur + 4;
      } else if token == PROP {
        cur := cur + 12 + Align4(Be32(st, cur + 4));
      } else if token == NOP {
        cur := cur + 4;
      } else {
        return;
      }
    }
    EndOfBlock(st, str, stack, comps);
  }

  lemma EndOfBlock(st: seq<Byte>, str: seq<Byte>, stack: seq<Name>, comps: seq<Name>)
    ensures Wanted(st, str, |st|, stack, comps) == -1
  {
  }

  /** The match counter when a node opens: it has the wanted path exactly if all components match at this depth. */
  lemma {:induction false} BeginMatch(stack: seq<Name>, name: Name, comps: seq<Name>)
    ensures var m, d := if stack == [] then -1 else Common(stack[1..], comps), |stack|;
            && Common((stack + [name])[1..], comps) == (if d == 0 then 0 else if m == d - 1 && d <= |comps| && name == comps[d - 1] then d else m)
            && ((stack + [name])[1..] == comps <==> (d == 0 && |comps| == 0) || (d > 0 && m == d - 1 && d == |comps| && name == comps[d - 1]))
  {
    hide Common;
    if stack == [] {
      assert (stack + [name])[1..] == [];
    } else {
      var a := stack[1..];
      assert (stack + [name])[1..] == a + [name];
      CommonPush(a, comps, name);
      CommonWhole(a + [name], comps);
    }
  }

  lemma {:induction false} CommonWhole(a: seq<Name>, b: seq<Name>)
    ensures a == b <==> Common(a, b) == |a| == |b|
  {
    hide Common;
    if a == b { CommonIs(a, b, |a|); }
  }

  lemma EndMatch(stack: seq<Name>, comps: seq<Name>)
    requires stack != []
    ensures var m, d := Common(stack[1..], comps), |stack| - 1;
            |stack| > 1 ==> Common(Pop(stack)[1..], comps) == if m == d then d - 1 else m
  {
    if |stack| > 1 {
      CommonPop(stack[1..], comps);
      assert Pop(stack)[1..] == Pop(stack[1..]);
    }
  }

  // ----- properties -----

  /** Some node starts at this offset. */
  ghost predicate HasNode(toks: seq<Tok>, off: nat) {
    exists i :: 0 <= i < |toks| && toks[i].TBegin? && toks[i].at == off
  }

  /** Tokens from `pos` on start there or later. */
  lemma {:induction false} ToksAtLeast(st: seq<Byte>, str: seq<Byte>, pos: nat)
    requires pos <= |st|
    ensures forall i :: 0 <= i < |Toks(st, str, pos)| ==> Toks(st, str, pos)[i].at >= pos
    decreases |st| - pos
  {
    hide Decode;
    var r := Decode(st, str, pos);
    if !r.End? && !r.Invalid? {
      ToksAtLeast(st, str, r.next);
    }
  }

  /** The first property of node `off`, from `cur` on, inside the open nodes `stack`. */
  ghost function Prop1(st: seq<Byte>, str: seq<Byte>, cur: nat, stack: seq<nat>, off: nat, name: Name): Found
    requires cur <= |st|
  {
    FirstProp(Props(Toks(st, str, cur), stack), off, name)
  }

  ghost predicate Node1(st: seq<Byte>, str: seq<Byte>, cur: nat, off: nat)
    requires cur <= |st|
  {
    HasNode(Toks(st, str, cur), off)
  }

  lemma Prop1Step(st: seq<Byte>, str: seq<Byte>, cur: nat, stack: seq<nat>, off: nat, name: Name)
    requires cur <= |st|
    ensures var r, now := Decode(st, str, cur), Prop1(st, str, cur, stack, off, name);
            && (r.Begin? ==> now == Prop1(st, str, r.next, stack + [cur], off, name))
            && (r.EndNode? ==> now == Prop1(st, str, r.next, Pop(stack), off, name))
            && (r.Nop? ==> now == Prop1(st, str, r.next, stack, off, name))
            && (r.Prop? && stack != [] && stack[|stack| - 1] == off && r.name == name ==> now == Present(r.dataAt, r.len))
            && (r.Prop? && !(stack != [] && stack[|stack| - 1] == off && r.name == name) ==> now == Prop1(st, str, r.next, stack, off, name))
            && (r.End? || r.Invalid? ==> now == Absent)
  {
    hide Decode;
    var r, toks := Decode(st, str, cur), Toks(st, str, cur);
    if !r.End? && !r.Invalid? { assert toks[1..] == Toks(st, str, r.next); }
    if r.Prop? {
      var props, rest := Props(toks, stack), Props(toks[1..], stack);
      assert stack == [] ==> props == rest;
      assert stack != [] ==> props[1..] == rest;
    }
  }

  lemma Node1Step(st: seq<Byte>, str: seq<Byte>, cur: nat, off: nat)
    requires cur <= |st|
    ensures var r := Decode(st, str, cur);
            && (r.Begin? ==> (Node1(st, str, cur, off) <==> cur == off || Node1(st, str, r.next, off)))
            && (r.EndNode? || r.Prop? || r.Nop? ==> (Node1(st, str, cur, off) <==> Node1(st, str, r.next, off)))
            && (r.End? || r.Invalid? ==> !Node1(st, str, cur, off))
            && (off < cur ==> !Node1(st, str, cur, off))
  {
    ToksAtLeast(st, str, cur);
    hide Decode;
    var r, toks := Decode(st, str, cur), Toks(st, str, cur);
    if !r.End? && !r.Invalid? {
      var rest := Toks(st, str, r.next);
      assert toks[1..] == rest;
      if HasNode(rest, off) {
        var i :| 0 <= i < |rest| && rest[i].TBegin? && rest[i].at == off;
        assert toks[i + 1] == rest[i];
      }
      if r.Begin? && cur == off { assert toks[0] == TBegin(cur, r.name); }
    }
  }

  /** Below no open node, and with none to come, the node has no property. */
  lemma {:induction false} NoMore(st: seq<Byte>, str: seq<Byte>, cur: nat, stack: seq<nat>, off: nat, name: Name)
    requires off < cur <= |st| && off !in stack
    ensures Prop1(st, str, cur, stack, off, name) == Absent
    decreases |st| - cur
  {
    hide Decode, Toks, Props, FirstProp;
    Prop1Step(st, str, cur, stack, off, name);
    var r := Decode(st, str, cur);
    match r
    case Begin(_, next) => NoMore(st, str, next, stack + [cur], off, name);
    case EndNode(next) => NoMore(st, str, next, Pop(stack), off, name);
    case Prop(_, _, _, next) => NoMore(st, str, next, stack, off, name);
    case Nop(next) => NoMore(st, str, next, stack, off, name);
    case End =>
    case Invalid =>
  }

  /** `fdt_is_node_offset`; the ghost results say where in the tree the node is. */
  method IsNodeOffset(st: seq<Byte>, str: seq<Byte>, off: nat, ghost name: Name) returns (yes: bool, ghost stack: seq<nat>, ghost root: bool)
    requires Valid(st, str, 0, 0, false)
    ensures yes <==> Node1(st, str, 0, off)
    ensures yes ==> off < |st| && Valid(st, str, off, |stack|, root) && Decode(st, str, off).Begin? && off !in stack
    ensures yes ==> Prop1(st, str, 0, [], off, name) == Prop1(st, str, off, stack, off, name)
  {
    hide Be32, Decode, StrEnd, Toks, Props, FirstProp, HasNode, Valid;
    stack, root := [], false;
    var cur := 0;
    while cur < |st|
      invariant cur <= |st| && (cur < |st| ==> Valid(st, str, cur, |stack|, root))
      invariant forall i :: 0 <= i < |stack| ==> stack[i] < off
      invariant Node1(st, str, 0, off) <==> Node1(st, str, cur, off)
      invariant Prop1(st, str, 0, [], off, name) == Prop1(st, str, cur, stack, off, name)
      decreases |st| - cur
    {
      TokenInside(st, str, cur, |stack|, root);
      ValidStep(st, str, cur, |stack|, root);
      Node1Step(st, str, cur, off);
      Prop1Step(st, str, cur, stack, off, name);
      var token := Be32(st, cur);
      if cur == off {
        NotTwice(st, str, off);
        return token == BEGIN_NODE, stack, root;
      }
      if cur > off { return false, stack, root; }
      if token == BEGIN_NODE {
        var n := StrLen(st, cur + 4);
        stack, root := stack + [cur], true;
        cur := cur + 4 + Align4(n + 1);
      } else if token == PROP {
        cur := cur + 12 + Align4(Be32(st, cur + 4));
      } else if token == FdtTokens.END {
        return false, stack, root;
      } else {
        if token == END_NODE { stack := Pop(stack); }
        cur := cur + 4;
      }
    }
    Node1Step(st, str, |st|, off);
    NothingAtEnd(st, str);
    return false, stack, root;
  }

  lemma NothingAtEnd(st: seq<Byte>, str: seq<Byte>)
    ensures Decode(st, str, |st|) == Invalid
  {
  }

  /** If the token at `off` opens no node, no node starts there. */
  lemma NotTwice(st: seq<Byte>, str: seq<Byte>, off: nat)
    requires off <= |st|
    ensures !Decode(st, str, off).Begin? ==> !Node1(st, str, off, off)
  {
    hide Decode;
    Node1Step(st, str, off, off);
    var r := Decode(st, str, off);
    if !r.End? && !r.Invalid? { Node1Step(st, str, r.next, off); }
  }

  /** `fdt_getprop` on a validated blob: the first property of that name the node itself owns. */
  method GetProp(st: seq<Byte>, str: seq<Byte>, node: int, name: Name) returns (r: Found)
    requires Valid(st, str, 0, 0, false) && 0 !in name
    ensures r == if node >= 0 && Node1(st, str, 0, node) then Prop1(st, str, 0, [], node, name) else Absent
    ensures r.Present? ==> r.dataAt + r.len <= |st|
  {
    hide Be32, Decode, StrEnd, Toks, Props, FirstProp, HasNode, Valid;
    if node < 0 { return Absent; }
    NodesAligned(st, str, 0, node);
    if node % 4 != 0 { return Absent; }
    if node >= |st| {
      NodeInside(st, str, 0, node);
      return Absent;
    }
    var yes, outer, root := IsNodeOffset(st, str, node, name);
    if !yes { return Absent; }
    r := ScanProps(st, str, node, name, outer, root);
  }

  /** Nodes start at multiples of four. */
  lemma NodesAligned(st: seq<Byte>, str: seq<Byte>, cur: nat, off: nat)
    requires cur <= |st| && cur % 4 == 0
    ensures Node1(st, str, cur, off) ==> off % 4 == 0
  {
    hide Toks;
    ToksAligned(st, str, cur);
  }

  lemma {:induction false} NodeInside(st: seq<Byte>, str: seq<Byte>, cur: nat, off: nat)
    requires cur <= |st| <= off
    ensures !Node1(st, str, cur, off)
    decreases |st| - cur
  {
    hide Decode, Toks, HasNode;
    Node1Step(st, str, cur, off);
    var r := Decode(st, str, cur);
    if !r.End? && !r.Invalid? { NodeInside(st, str, r.next, off); }
  }

  /** The scan from the node's own token to its end. */
  method ScanProps(st: seq<Byte>, str: seq<Byte>, node: nat, name: Name, ghost outer: seq<nat>, ghost seen: bool) returns (r: Found)
    requires node < |st| && Valid(st, str, node, |outer|, seen) && Decode(st, str, node).Begin? && node !in outer && 0 !in name
    ensures r == Prop1(st, str, node, outer, node, name)
    ensures r.Present? ==> r.dataAt + r.len <= |st|
  {
    hide Be32, Decode, StrEnd, Toks, Props, FirstProp, HasNode, Valid;
    TokenInside(st, str, node, |outer|, seen);
    ValidStep(st, str, node, |outer|, seen);
    Prop1Step(st, str, node, outer, node, name);
    var n := StrLen(st, node + 4);
    var cur, depth := node + 4 + Align4(n + 1), 0;
    ghost var stack: seq<nat> := outer + [node];
    while cur < |st|
      invariant node < cur <= |st| && depth >= 0 && |stack| == |outer| + 1 + depth && outer + [node] <= stack
      invariant forall i :: |outer| < i < |stack| ==> stack[i] != node
      invariant cur < |st| ==> Valid(st, str, cur, |stack|, true)
      invariant Prop1(st, str, cur, stack, node, name) == Prop1(st, str, node, outer, node, name)
      decreases |st| - cur
    {
      TokenInside(st, str, cur, |stack|, true);
      ValidStep(st, str, cur, |stack|, true);
      Prop1Step(st, str, cur, stack, node, name);
      var token := Be32(st, cur);
      if token == BEGIN_NODE {
        n := StrLen(st, cur + 4);
        stack := stack + [cur];
        cur := cur + 4 + Align4(n + 1);
        depth := depth + 1;
      } else if token == END_NODE {
        if depth == 0 {
          assert Pop(stack) == outer;
          NoMore(st, str, cur + 4, outer, node, name);
          return Absent;
        }
        stack := Pop(stack);
        depth := depth - 1;
        cur := cur + 4;
      } else if token == PROP {
        var len, nameoff := Be32(st, cur + 4), Be32(st, cur + 8);
        var same := NameEq(str, nameoff, name);
        if depth == 0 && same {
          return Present(cur + 12, len);
        }
        cur := cur + 12 + Align4(len);
      } else if token == NOP {
        cur := cur + 4;
      } else {
        return Absent;
      }
    }
    Prop1Step(st, str, |st|, stack, node, name);
    NothingAtEnd(st, str);
    return Absent;
  }

  // ----- compatible strings -----

  /** `want` is one of the NUL-terminated strings the data starts with. */
  ghost predicate Lists(data: seq<Byte>, want: Name)
    decreases |data|
  {
    data != [] && data[0] != 0 && StrEnd(data, 0) < |data|
    && (data[..StrEnd(data, 0)] == want || Lists(data[StrEnd(data, 0) + 1..], want))
  }

  /** Strings, each followed by a NUL. */
  function Terminated(ss: seq<Name>): seq<Byte> {
    if ss == [] then [] else ss[0] + [0] + Terminated(ss[1..])
  }

  ghost predicate IsString(s: Name) {
    s != [] && 0 !in s
  }

  /** The list ends: nothing follows, an empty string, or bytes without a terminator. */
  predicate Ends(tail: seq<Byte>) {
    tail == [] || tail[0] == 0 || 0 !in tail
  }

  lemma {:induction false} FirstString(s: Name, rest: seq<Byte>)
    requires IsString(s)
    ensures var d := s + [0] + rest;
            d != [] && d[0] != 0 && StrEnd(d, 0) == |s| && d[..|s|] == s && d[|s| + 1..] == rest
  {
    var d := s + [0] + rest;
    assert d[0] == s[0] && s[0] in s;
    StringEnds(d, 0, |s|);
  }

  lemma {:induction false} StringEnds(d: seq<Byte>, i: nat, j: nat)
    requires i <= j < |d| && d[j] == 0 && forall k :: i <= k < j ==> d[k] != 0
    ensures StrEnd(d, i) == j
    decreases j - i
  {
    if i < j { StringEnds(d, i + 1, j); }
  }

  /** A value lists exactly the strings it is made of. */
  lemma {:induction false} ListsExactly(ss: seq<Name>, tail: seq<Byte>, want: Name)
    requires (forall i :: 0 <= i < |ss| ==> IsString(ss[i])) && Ends(tail)
    ensures Lists(Terminated(ss) + tail, want) <==> want in ss
    decreases |ss|
  {
    hide StrEnd;
    if ss == [] {
      assert Terminated(ss) + tail == tail;
      NoStrings(tail, want);
    } else {
      var rest := Terminated(ss[1..]) + tail;
      assert Terminated(ss) + tail == ss[0] + [0] + rest;
      FirstString(ss[0], rest);
      ListsExactly(ss[1..], tail, want);
      assert ss == [ss[0]] + ss[1..];
    }
  }

  lemma NoStrings(tail: seq<Byte>, want: Name)
    requires Ends(tail)
    ensures !Lists(tail, want)
  {
    if tail != [] && StrEnd(tail, 0) < |tail| {
      assert tail[StrEnd(tail, 0)] in tail;
    }
  }

  /** Every value is such a list. */
  lemma {:induction false} SplitStrings(data: seq<Byte>) returns (ss: seq<Name>, tail: seq<Byte>)
    ensures data == Terminated(ss) + tail && Ends(tail) && forall i :: 0 <= i < |ss| ==> IsString(ss[i])
    decreases |data|
  {
    if data == [] || data[0] == 0 || StrEnd(data, 0) == |data| {
      assert data[0..|data|] == data;
      ss, tail := [], data;
      assert Terminated(ss) + tail == data;
    } else {
      var e := StrEnd(data, 0);
      var rest;
      rest, tail := SplitStrings(data[e + 1..]);
      assert data[0..e] == data[..e];
      ss := [data[..e]] + rest;
      assert ss[1..] == rest;
      assert data == data[..e] + [0] + data[e + 1..];
      assert data[..e] + [0] + (Terminated(rest) + tail) == data[..e] + [0] + Terminated(rest) + tail;
    }
  }

  lemma CompatibleSpelled()
    ensures COMPATIBLE == Ascii("compatible")
  {
  }

  /** `prop_has_compatible`. */
  method HasCompatible(data: seq<Byte>, want: Name) returns (yes: bool)
    requires 0 !in want
    ensures yes <==> Lists(data, want)
  {
    hide StrEnd;
    var cur := 0;
    assert data[0..] == data;
    while cur < |data| && data[cur] != 0
      invariant cur <= |data| && (Lists(data, want) <==> Lists(data[cur..], want))
      decreases |data| - cur
    {
      var rest := data[cur..];
      var n := ScanName(rest, 0);
      if n == |rest| { return false; }
      if n == |want| {
        var same := NameEq(rest, 0, want);
        if same { return true; }
      }
      assert rest[n + 1..] == data[cur + n + 1..];
      cur := cur + n + 1;
    }
    return false;
  }

  /** "compatible" */
  const COMPATIBLE: Name := [99, 111, 109, 112, 97, 116, 105, 98, 108, 101]

  ghost predicate IsCompatible(st: seq<Byte>, p: Owned, want: Name) {
    p.name == COMPATIBLE && p.dataAt + p.len <= |st| && Lists(st[p.dataAt..p.dataAt + p.len], want)
  }

  /** The owner of the first property that lists the string, or -1. */
  ghost function FirstCompatible(st: seq<Byte>, props: seq<Owned>, want: Name): int {
    if props == [] then -1 else if IsCompatible(st, props[0], want) then props[0].owner else FirstCompatible(st, props[1..], want)
  }

  ghost function Compat1(st: seq<Byte>, str: seq<Byte>, cur: nat, stack: seq<nat>, want: Name): int
    requires cur <= |st|
  {
    FirstCompatible(st, Props(Toks(st, str, cur), stack), want)
  }

  lemma Compat1Step(st: seq<Byte>, str: seq<Byte>, cur: nat, stack: seq<nat>, want: Name)
    requires cur <= |st|
    ensures var r, now := Decode(st, str, cur), Compat1(st, str, cur, stack, want);
            && (r.Begin? ==> now == Compat1(st, str, r.next, stack + [cur], want))
            && (r.EndNode? ==> now == Compat1(st, str, r.next, Pop(stack), want))
            && (r.Nop? ==> now == Compat1(st, str, r.next, stack, want))
            && (r.Prop? && stack != [] ==> var p := Owned(stack[|stack| - 1], r.name, r.dataAt, r.len);
                  now == if IsCompatible(st, p, want) then p.owner else Compat1(st, str, r.next, stack, want))
            && (r.End? || r.Invalid? ==> now == -1)
  {
    hide Decode, IsCompatible;
    var r, toks := Decode(st, str, cur), Toks(st, str, cur);
    if !r.End? && !r.Invalid? { assert toks[1..] == Toks(st, str, r.next); }
    if r.Prop? && stack != [] {
      assert Props(toks, stack)[1..] == Props(toks[1..], stack);
    }
  }

  /** `fdt_find_compatible`: the array of open nodes never overflows on a validated blob. */
  method FindCompatible(st: seq<Byte>, str: seq<Byte>, want: Name) returns (node: int)
    requires Valid(st, str, 0, 0, false) && 0 !in want
    ensures node == Compat1(st, str, 0, [], want)
  {
    hide Be32, Decode, StrEnd, Toks, Props, FirstCompatible, Valid, Lists;
    var current := new nat[MAX_DEPTH];
    node := -1;
    var cur, depth := 0, -1;
    ghost var stack: seq<nat>, root := [], false;
    while cur < |st|
      invariant cur <= |st| && depth == |stack| - 1 < MAX_DEPTH && current[..depth + 1] == stack && node == -1
      invariant cur < |st| ==> Valid(st, str, cur, |stack|, root)
      invariant Compat1(st, str, 0, [], want) == Compat1(st, str, cur, stack, want)
      decreases |st| - cur
    {
      TokenInside(st, str, cur, |stack|, root);
      ValidStep(st, str, cur, |stack|, root);
      DepthBound(st, str, cur, |stack|, root);
      Compat1Step(st, str, cur, stack, want);
      var token := Be32(st, cur);
      if token == BEGIN_NODE {
        var n := StrLen(st, cur + 4);
        // The code's own depth test cannot fail here.
        depth := depth + 1;
        current[depth] := cur;
        stack, root := stack + [cur], true;
        cur := cur + 4 + Align4(n + 1);
      } else if token == END_NODE {
        depth := depth - 1;
        stack := Pop(stack);
        cur := cur + 4;
      } else if token == PROP {
        var len, nameoff := Be32(st, cur + 4), Be32(st, cur + 8);
        var same := NameEq(str, nameoff, COMPATIBLE);
        if depth >= 0 && same {
          var lists := HasCompatible(st[cur + 12..cur + 12 + len], want);
          if lists { return current[depth]; }
        }
        cur := cur + 12 + Align4(len);
      } else if token == NOP {
        cur := cur + 4;
      } else {
        return;
      }
    }
    Compat1Step(st, str, |st|, stack, want);
    NothingAtEnd(st, str);
  }

  lemma DepthBound(st: seq<Byte>, str: seq<Byte>, cur: nat, depth: int, root: bool)
    requires cur <= |st| && Valid(st, str, cur, depth, root)
    ensures Decode(st, str, cur).Begin? ==> depth + 1 <= MAX_DEPTH
    ensures Decode(st, str, cur).Prop? ==> depth != 0
  {
  }

  // ----- paths -----

  const SLASH: Byte := 47

  /** End of the component that starts at `p`. */
  function SlashEnd(path: seq<Byte>, p: nat): (e: nat)
    requires p <= |path|
    ensures p <= e <= |path| && (e < |path| ==> path[e] == SLASH) && SLASH !in path[p..e]
    decreases |path| - p
  {
    if p == |path| || path[p] == SLASH then p else
      var e := SlashEnd(path, p + 1);
      assert path[p..e] == [path[p]] + path[p + 1..e];
      e
  }

  /** The components from position `p` on; a trailing slash adds none. */
  function Comps(path: seq<Byte>, p: nat): seq<Name>
    requires p <= |path|
    decreases |path| - p
  {
    if p == |path| then [] else
      var e := SlashEnd(path, p);
      [path[p..e]] + if e < |path| then Comps(path, e + 1) else []
  }

  /** The path splitting of `fdt_path_offset`: at most 16 components. */
  method SplitPath(path: seq<Byte>) returns (ok: bool, comps: seq<Name>)
    requires path != [] && path[0] == SLASH
    ensures ok <==> |Comps(path, 1)| <= MAX_DEPTH
    ensures ok ==> comps == Comps(path, 1)
  {
    hide SlashEnd, Comps;
    comps := [];
    var p := 1;
    assert Comps(path, 1) == comps + Comps(path, p);
    while p < |path|
      invariant 1 <= p <= |path| && |comps| <= MAX_DEPTH && Comps(path, 1) == comps + Comps(path, p)
      decreases |path| - p
    {
      CompsFrom(path, p, comps);
      var start := p;
      p := SkipComponent(path, p);
      if |comps| >= MAX_DEPTH { return false, comps; }
      comps := comps + [path[start..p]];
      if p < |path| {
        p := p + 1;
      }
    }
    CompsFrom(path, p, comps);
    ok := true;
  }

  lemma {:induction false} CompsFrom(path: seq<Byte>, p: nat, before: seq<Name>)
    requires p <= |path|
    ensures p < |path| ==> var e := SlashEnd(path, p);
      before + Comps(path, p) == before + [path[p..e]] + (if e < |path| then Comps(path, e + 1) else Comps(path, e))
    ensures p == |path| ==> before + Comps(path, p) == before
    ensures p < |path| ==> |Comps(path, p)| > 0
  {
    hide SlashEnd;
  }

  method SkipComponent(path: seq<Byte>, start: nat) returns (p: nat)
    requires start <= |path|
    ensures p == SlashEnd(path, start)
  {
    p := start;
    while p < |path| && path[p] != SLASH
      invariant start <= p <= |path| && SlashEnd(path, start) == SlashEnd(path, p)
    {
      p := p + 1;
    }
  }

  lemma {:induction false} CompsClean(path: seq<Byte>, p: nat)
    requires p <= |path| && 0 !in path
    ensures forall i :: 0 <= i < |Comps(path, p)| ==> 0 !in Comps(path, p)[i]
    decreases |path| - p
  {
    hide SlashEnd;
    if p < |path| && SlashEnd(path, p) < |path| { CompsClean(path, SlashEnd(path, p) + 1); }
  }

  /** Paths in a validated blob have fewer components than the depth limit. */
  lemma {:induction false} NoDeepPath(st: seq<Byte>, str: seq<Byte>, cur: nat, stack: seq<Name>, comps: seq<Name>, root: bool)
    requires cur <= |st| && Valid(st, str, cur, |stack|, root) && |comps| >= MAX_DEPTH
    ensures Wanted(st, str, cur, stack, comps) == -1
    decreases |st| - cur
  {
    hide Decode, Toks, Paths, FirstNode;
    WantedStep(st, str, cur, stack, comps);
    match Decode(st, str, cur)
    case Begin(name, next) => NoDeepPath(st, str, next, stack + [name], comps, true);
    case EndNode(next) => NoDeepPath(st, str, next, Pop(stack), comps, root);
    case Prop(_, _, _, next) => NoDeepPath(st, str, next, stack, comps, root);
    case Nop(next) => NoDeepPath(st, str, next, stack, comps, root);
    case End =>
  }

  /** `fdt_path_offset`: the first node with the path, in any readable blob; -1 for malformed blobs and paths. */
  method PathOffset(fdt: seq<Byte>, aligned: bool, path: seq<Byte>) returns (node: int)
    requires Readable(fdt) && 0 !in path
    ensures aligned && Checked(fdt) && path != [] && path[0] == SLASH ==> node == Wanted(Struct(fdt), Strings(fdt), 0, [], Comps(path, 1))
    ensures !(aligned && Checked(fdt) && path != [] && path[0] == SLASH) ==> node == -1
  {
    hide Be32, Valid, Wanted;
    if path == [] || path[0] != SLASH { return -1; }
    var ok, comps := SplitPath(path);
    CompsClean(path, 1);
    assert aligned && Checked(fdt) && |Comps(path, 1)| >= MAX_DEPTH ==> Wanted(Struct(fdt), Strings(fdt), 0, [], Comps(path, 1)) == -1 by {
      if Checked(fdt) && |Comps(path, 1)| >= MAX_DEPTH { NoDeepPath(Struct(fdt), Strings(fdt), 0, [], Comps(path, 1), false); }
    }
    if !ok { return -1; }
    var good := CheckHeader(fdt, aligned);
    if !good { return -1; }
    node := FindPath(Struct(fdt), Strings(fdt), comps);
  }
}
