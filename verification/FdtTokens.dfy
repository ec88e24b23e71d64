/**
 The token stream of a flattened device tree (sections 5.2 to 5.4 of the Devicetree Specification) as
 kernel/src/fdt.c reads it: what a token is, which streams the validator accepts, and the list of tokens.
 `st` is the structure block and `str` the strings block.
 */
module FdtTokens {
  import opened ByteSeqs

  type Name = seq<Byte>

  const BEGIN_NODE: nat := 1
  const END_NODE: nat := 2
  const PROP: nat := 3
  const NOP: nat := 4
  const END: nat := 9
  const MAX_DEPTH: nat := 16

  /** Big-endian 32-bit number. */
  function Be32(s: seq<Byte>, at: nat): (v: nat)
    requires at + 4 <= |s|
  {
    var a: int, b: int, c: int, d: int := s[at], s[at + 1], s[at + 2], s[at + 3];
    a * 0x100_0000 + b * 0x1_0000 + c * 0x100 + d
  }

  /** Index of the first NUL at or after `i`, or the length. */
  function StrEnd(s: seq<Byte>, i: nat): (j: nat)
    requires i <= |s|
    ensures i <= j <= |s| && (j < |s| ==> s[j] == 0) && 0 !in s[i..j]
    decreases |s| - i
  {
    if i == |s| || s[i] == 0 then i else
      var j := StrEnd(s, i + 1);
      assert s[i..j] == [s[i]] + s[i + 1..j];
      j
  }

  datatype Item =
    | Begin(name: Name, next: nat) | EndNode(next: nat) | Prop(name: Name, dataAt: nat, len: nat, next: nat)
    | Nop(next: nat) | End | Invalid

  /** A node's name and the padding behind it. */
  function DecodeBegin(st: seq<Byte>, at: nat): (r: Item)
    requires at <= |st|
    ensures r.Invalid? || (r.Begin? && at < r.next <= |st| && r.next == at + Align4(|r.name| + 1))
  {
    var e := StrEnd(st, at);
    if e == |st| || Align4(e - at + 1) > |st| - at then Invalid else Begin(st[at..e], at + Align4(e - at + 1))
  }

  /** A property's length, name offset and data. */
  function DecodeProp(st: seq<Byte>, str: seq<Byte>, at: nat): (r: Item)
    requires at <= |st|
    ensures r.Invalid? || (r.Prop? && r.dataAt == at + 8 && r.next == r.dataAt + Align4(r.len) <= |st|)
  {
    if |st| - at < 8 then Invalid else
    var len, nameoff := Be32(st, at), Be32(st, at + 4);
    if len > 0x7fff_ffff || Align4(len) > |st| - (at + 8) || nameoff >= |str| || StrEnd(str, nameoff) == |str| then Invalid
    else Prop(str[nameoff..StrEnd(str, nameoff)], at + 8, len, at + 8 + Align4(len))
  }

  /** The token at `pos`, if it lies completely inside the blocks. */
  function Decode(st: seq<Byte>, str: seq<Byte>, pos: nat): (r: Item)
    requires pos <= |st|
    ensures !r.End? && !r.Invalid? ==> pos < r.next <= |st|
  {
    if |st| - pos < 4 then Invalid else
    var token, at := Be32(st, pos), pos + 4;
    if token == BEGIN_NODE then DecodeBegin(st, at)
    else if token == END_NODE then EndNode(at)
    else if token == PROP then DecodeProp(st, str, at)
    else if token == NOP then Nop(at)
    else if token == END then Item.End
    else Invalid
  }

  /** Tokens stay aligned. */
  lemma DecodeAligned(st: seq<Byte>, str: seq<Byte>, pos: nat)
    requires pos <= |st| && pos % 4 == 0
    ensures var r := Decode(st, str, pos); (!r.End? && !r.Invalid? ==> r.next % 4 == 0) && (r.Prop? ==> r.dataAt % 4 == 0)
  {
    hide Be32, StrEnd;
  }

  /** The rest of the stream is well formed when `depth` nodes are open and `root` says whether one was seen. */
  ghost predicate Valid(st: seq<Byte>, str: seq<Byte>, pos: nat, depth: int, root: bool)
    requires pos <= |st|
    decreases |st| - pos
  {
    match Decode(st, str, pos)
    case Begin(_, next) => !(depth == 0 && root) && depth + 1 <= MAX_DEPTH && Valid(st, str, next, depth + 1, true)
    case EndNode(next) => depth != 0 && Valid(st, str, next, depth - 1, root)
    case Prop(_, _, _, next) => depth != 0 && Valid(st, str, next, depth, root)
    case Nop(next) => Valid(st, str, next, depth, root)
    case End => root && depth == 0
    case Invalid => false
  }

  /** Tokens with their positions. */
  datatype Tok = TBegin(at: nat, name: Name) | TEnd(at: nat) | TProp(at: nat, name: Name, dataAt: nat, len: nat) | TNop(at: nat)

  /** The tokens from `pos` to the END token. */
  ghost function Toks(st: seq<Byte>, str: seq<Byte>, pos: nat): seq<Tok>
    requires pos <= |st|
    decreases |st| - pos
  {
    match Decode(st, str, pos)
    case Begin(name, next) => [TBegin(pos, name)] + Toks(st, str, next)
    case EndNode(next) => [TEnd(pos)] + Toks(st, str, next)
    case Prop(name, dataAt, len, next) => [TProp(pos, name, dataAt, len)] + Toks(st, str, next)
    case Nop(next) => [TNop(pos)] + Toks(st, str, next)
    case End => []
    case Invalid => []
  }

  /** Every token, and every property's data, starts at a multiple of four. */
  lemma {:induction false} ToksAligned(st: seq<Byte>, str: seq<Byte>, pos: nat)
    requires pos <= |st| && pos % 4 == 0
    ensures forall t :: t in Toks(st, str, pos) ==> t.at % 4 == 0 && (t.TProp? ==> t.dataAt % 4 == 0)
    decreases |st| - pos
  {
    DecodeAligned(st, str, pos);
    hide Decode;
    var r := Decode(st, str, pos);
    if !r.End? && !r.Invalid? {
      ToksAligned(st, str, r.next);
    }
  }

  // ----- what lookups mean -----

  /** Every node with its path: the names of its ancestors below the root, and its own. `stack` are the open nodes' names. */
  ghost function Paths(toks: seq<Tok>, stack: seq<Name>): seq<(nat, seq<Name>)> {
    if toks == [] then [] else
    match toks[0]
    case TBegin(at, name) => [(at, (stack + [name])[1..])] + Paths(toks[1..], stack + [name])
    case TEnd(_) => Paths(toks[1..], Pop(stack))
    case TProp(_, _, _, _) => Paths(toks[1..], stack)
    case TNop(_) => Paths(toks[1..], stack)
  }

  function Pop<T>(s: seq<T>): seq<T> {
    if s == [] then [] else s[..|s| - 1]
  }

  /** The first node with the path, or -1. */
  ghost function FirstNode(nodes: seq<(nat, seq<Name>)>, path: seq<Name>): int {
    if nodes == [] then -1 else if nodes[0].1 == path then nodes[0].0 else FirstNode(nodes[1..], path)
  }

  /** A property with the node that owns it: the innermost open node, by offset. */
  datatype Owned = Owned(owner: nat, name: Name, dataAt: nat, len: nat)

  ghost function Props(toks: seq<Tok>, stack: seq<nat>): seq<Owned> {
    if toks == [] then [] else
    match toks[0]
    case TBegin(at, _) => Props(toks[1..], stack + [at])
    case TEnd(_) => Props(toks[1..], Pop(stack))
    case TProp(_, name, dataAt, len) =>
      (if stack == [] then [] else [Owned(stack[|stack| - 1], name, dataAt, len)]) + Props(toks[1..], stack)
    case TNop(_) => Props(toks[1..], stack)
  }

  datatype Found = Absent | Present(dataAt: nat, len: nat)

  /** The first property of that node and name. */
  ghost function FirstProp(props: seq<Owned>, owner: nat, name: Name): Found {
    if props == [] then Absent
    else if props[0].owner == owner && props[0].name == name then Present(props[0].dataAt, props[0].len)
    else FirstProp(props[1..], owner, name)
  }
}
