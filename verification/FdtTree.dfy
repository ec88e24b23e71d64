/**
 Device trees and their encoding (sections 5.4 and 5.5 of the Devicetree Specification): the validator
 accepts every encoded tree, and lookups in the blob are lookups in the tree.
 */
module FdtTree {
  import opened ByteSeqs
  import opened FdtTokens
  import opened Fdt

  /** A node; properties, children and NOP tokens in any order. A property names itself by an offset into the strings block. */
  datatype Tree = Tree(name: Name, content: seq<Content>)
  datatype Content = Property(nameoff: nat, data: seq<Byte>) | Child(node: Tree) | Gap

  const WORD: nat := 0x1_0000_0000

  /** Names without NUL, property names terminated inside the strings block, and at most 16 levels. */
  ghost predicate Encodable(t: Tree, str: seq<Byte>, depth: nat)
    decreases t
  {
    0 !in t.name && depth + 1 <= MAX_DEPTH && forall i :: 0 <= i < |t.content| ==> ContentOk(t.content[i], str, depth + 1)
  }

  ghost predicate ContentOk(c: Content, str: seq<Byte>, depth: nat)
    decreases c
  {
    match c
    case Property(nameoff, data) => |data| <= 0x7fff_ffff && nameoff < |str| && nameoff < WORD && StrEnd(str, nameoff) < |str|
    case Child(node) => Encodable(node, str, depth)
    case Gap => true
  }

  // ----- encoding -----

  function Word(v: nat): (r: seq<Byte>)
    requires v < WORD
    ensures |r| == 4
  {
    [v / 0x100_0000, v / 0x1_0000 % 0x100, v / 0x100 % 0x100, v % 0x100]
  }

  function EncodeBegin(name: Name): (r: seq<Byte>)
    ensures |r| == 4 + Align4(|name| + 1)
  {
    Word(BEGIN_NODE) + Padded(name + [0], Align4(|name| + 1))
  }

  function EncodeProp(nameoff: nat, data: seq<Byte>): (r: seq<Byte>)
    requires nameoff < WORD && |data| < WORD
    ensures |r| == 12 + Align4(|data|)
  {
    Word(PROP) + Word(|data|) + Word(nameoff) + Padded(data, Align4(|data|))
  }

  ghost function Encode(t: Tree, str: seq<Byte>, depth: nat): seq<Byte>
    requires Encodable(t, str, depth)
    decreases t, 1
  {
    EncodeBegin(t.name) + EncodeAll(t.content, str, depth + 1) + Word(END_NODE)
  }

  ghost function EncodeAll(cs: seq<Content>, str: seq<Byte>, depth: nat): seq<Byte>
    requires forall i :: 0 <= i < |cs| ==> ContentOk(cs[i], str, depth)
    decreases cs, 0
  {
    if cs == [] then [] else EncodeContent(cs[0], str, depth) + EncodeAll(cs[1..], str, depth)
  }

  ghost function EncodeContent(c: Content, str: seq<Byte>, depth: nat): seq<Byte>
    requires ContentOk(c, str, depth)
    decreases c, 0
  {
    match c
    case Property(nameoff, data) => EncodeProp(nameoff, data)
    case Child(node) => Encode(node, str, depth)
    case Gap => Word(NOP)
  }

  // ----- tokens of the encoding -----

  /** The block contains these bytes at `at`. */
  ghost predicate Holds(s: seq<Byte>, at: nat, bytes: seq<Byte>) {
    at + |bytes| <= |s| && s[at..at + |bytes|] == bytes
  }

  lemma HoldsParts(s: seq<Byte>, at: nat, a: seq<Byte>, b: seq<Byte>)
    requires Holds(s, at, a + b)
    ensures Holds(s, at, a) && Holds(s, at + |a|, b)
  {
    var whole := s[at..at + |a + b|];
    assert s[at..at + |a|] == whole[..|a|] == a;
    assert s[at + |a|..at + |a| + |b|] == whole[|a|..] == b;
  }

  lemma WordReads(s: seq<Byte>, at: nat, v: nat)
    requires v < WORD && Holds(s, at, Word(v))
    ensures at + 4 <= |s| && Be32(s, at) == v
  {
    WordValue(v);
    var w := Word(v);
    hide Word;
    assert w[0] == s[at..at + 4][0] && w[1] == s[at..at + 4][1] && w[2] == s[at..at + 4][2] && w[3] == s[at..at + 4][3];
  }

  lemma WordValue(v: nat)
    requires v < WORD
    ensures Be32(Word(v), 0) == v
  {
    var a, b, c, d := v / 0x100_0000, v / 0x1_0000 % 0x100, v / 0x100 % 0x100, v % 0x100;
    var q1 := v / 0x100;
    var q2 := q1 / 0x100;
    assert v == q1 * 0x100 + d;
    assert q1 == q2 * 0x100 + c;
    assert q2 == v / 0x1_0000 && q2 / 0x100 == v / 0x100_0000;
    assert q2 == a * 0x100 + b;
  }

  /** The terminator ends the string where the encoding put it. */
  lemma {:induction false} StrEndAt(s: seq<Byte>, i: nat, j: nat)
    requires i <= j < |s| && s[j] == 0 && 0 !in s[i..j]
    ensures StrEnd(s, i) == j
    decreases j - i
  {
    if i < j {
      assert s[i] in s[i..j] && s[i + 1..j] == s[i..j][1..];
      StrEndAt(s, i + 1, j);
    }
  }

  lemma BeginReads(s: seq<Byte>, str: seq<Byte>, at: nat, name: Name)
    requires 0 !in name && Holds(s, at, EncodeBegin(name))
    ensures at <= |s| && Decode(s, str, at) == Begin(name, at + |EncodeBegin(name)|)
  {
    hide Be32, StrEnd, Padded, Word;
    var n := Align4(|name| + 1);
    var field := Padded(name + [0], n);
    HoldsParts(s, at, Word(BEGIN_NODE), field);
    WordReads(s, at, BEGIN_NODE);
    var from := at + 4;
    var held := s[from..from + n];
    var front := s[from..from + |name| + 1];
    assert front == held[..|name| + 1] == name + [0];
    assert s[from..from + |name|] == front[..|name|] == name;
    assert s[from + |name|] == front[|name|];
    StrEndAt(s, from, from + |name|);
  }

  lemma PropReads(s: seq<Byte>, str: seq<Byte>, at: nat, nameoff: nat, data: seq<Byte>)
    requires |data| <= 0x7fff_ffff && nameoff < |str| && nameoff < WORD && StrEnd(str, nameoff) < |str| && Holds(s, at, EncodeProp(nameoff, data))
    ensures at <= |s| && Decode(s, str, at) == Prop(str[nameoff..StrEnd(str, nameoff)], at + 12, |data|, at + |EncodeProp(nameoff, data)|)
    ensures s[at + 12..at + 12 + |data|] == data
  {
    hide Be32, StrEnd, Padded, Word, Align4;
    var field := Padded(data, Align4(|data|));
    HoldsParts(s, at, Word(PROP) + Word(|data|) + Word(nameoff), field);
    HoldsParts(s, at, Word(PROP) + Word(|data|), Word(nameoff));
    HoldsParts(s, at, Word(PROP), Word(|data|));
    WordReads(s, at, PROP);
    WordReads(s, at + 4, |data|);
    WordReads(s, at + 8, nameoff);
    PaddedHeld(s, at + 12, data, Align4(|data|));
    hide Holds;
  }

  lemma PaddedHeld(s: seq<Byte>, at: nat, data: seq<Byte>, n: nat)
    requires |data| <= n && Holds(s, at, Padded(data, n))
    ensures at + n <= |s| && s[at..at + |data|] == data
  {
    hide Zeros;
    var held := s[at..at + n];
    assert held[..|data|] == data;
    assert s[at..at + |data|] == held[..|data|];
  }

  lemma WordDecodes(s: seq<Byte>, str: seq<Byte>, at: nat, v: nat)
    requires v < WORD && Holds(s, at, Word(v))
    ensures v == END_NODE ==> at <= |s| && Decode(s, str, at) == EndNode(at + 4)
    ensures v == NOP ==> at <= |s| && Decode(s, str, at) == Nop(at + 4)
    ensures v == FdtTokens.END ==> at <= |s| && Decode(s, str, at) == Item.End
  {
    WordReads(s, at, v);
    hide Be32, Word;
  }

  // ----- the tree as lists -----

  /** The nodes in preorder with their offsets and paths. */
  ghost function TreePaths(t: Tree, str: seq<Byte>, depth: nat, at: nat, stack: seq<Name>): seq<(nat, seq<Name>)>
    requires Encodable(t, str, depth)
    decreases t, 1
  {
    [(at, (stack + [t.name])[1..])] + AllPaths(t.content, str, depth + 1, at + |EncodeBegin(t.name)|, stack + [t.name])
  }

  ghost function AllPaths(cs: seq<Content>, str: seq<Byte>, depth: nat, at: nat, stack: seq<Name>): seq<(nat, seq<Name>)>
    requires forall i :: 0 <= i < |cs| ==> ContentOk(cs[i], str, depth)
    decreases cs, 0
  {
    if cs == [] then [] else
      ContentPaths(cs[0], str, depth, at, stack) + AllPaths(cs[1..], str, depth, at + |EncodeContent(cs[0], str, depth)|, stack)
  }

  ghost function ContentPaths(c: Content, str: seq<Byte>, depth: nat, at: nat, stack: seq<Name>): seq<(nat, seq<Name>)>
    requires ContentOk(c, str, depth)
    decreases c, 0
  {
    match c
    case Property(_, _) => []
    case Child(node) => TreePaths(node, str, depth, at, stack)
    case Gap => []
  }

  /** The properties with their owners, in order. */
  ghost function TreeProps(t: Tree, str: seq<Byte>, depth: nat, at: nat): seq<Owned>
    requires Encodable(t, str, depth)
    decreases t, 1
  {
    AllProps(t.content, str, depth + 1, at + |EncodeBegin(t.name)|, at)
  }

  ghost function AllProps(cs: seq<Content>, str: seq<Byte>, depth: nat, at: nat, owner: nat): seq<Owned>
    requires forall i :: 0 <= i < |cs| ==> ContentOk(cs[i], str, depth)
    decreases cs, 0
  {
    if cs == [] then [] else
      ContentProps(cs[0], str, depth, at, owner) + AllProps(cs[1..], str, depth, at + |EncodeContent(cs[0], str, depth)|, owner)
  }

  ghost function ContentProps(c: Content, str: seq<Byte>, depth: nat, at: nat, owner: nat): seq<Owned>
    requires ContentOk(c, str, depth)
    decreases c, 0
  {
    match c
    case Property(nameoff, data) => [Owned(owner, str[nameoff..StrEnd(str, nameoff)], at + 12, |data|)]
    case Child(node) => TreeProps(node, str, depth, at)
    case Gap => []
  }

  // ----- blocks that encode a tree -----

  // Token by token the block reads as the encoding; padding bytes may be anything.

  ghost predicate Matches(s: seq<Byte>, str: seq<Byte>, t: Tree, depth: nat, at: nat)
    requires Encodable(t, str, depth)
    decreases t, 1
  {
    var inside := at + |EncodeBegin(t.name)|;
    var last := inside + |EncodeAll(t.content, str, depth + 1)|;
    && last <= |s| && Decode(s, str, at) == Begin(t.name, inside)
    && AllMatches(s, str, t.content, depth + 1, inside) && Decode(s, str, last) == EndNode(last + 4)
  }

  ghost predicate AllMatches(s: seq<Byte>, str: seq<Byte>, cs: seq<Content>, depth: nat, at: nat)
    requires forall i :: 0 <= i < |cs| ==> ContentOk(cs[i], str, depth)
    decreases cs, 0
  {
    && at <= |s|
    && (cs != [] ==> ContentMatches(s, str, cs[0], depth, at))
    && (cs != [] ==> AllMatches(s, str, cs[1..], depth, at + |EncodeContent(cs[0], str, depth)|))
  }

  ghost predicate ContentMatches(s: seq<Byte>, str: seq<Byte>, c: Content, depth: nat, at: nat)
    requires ContentOk(c, str, depth) && at <= |s|
    decreases c, 0
  {
    match c
    case Property(nameoff, data) =>
      && Decode(s, str, at) == Prop(str[nameoff..StrEnd(str, nameoff)], at + 12, |data|, at + 12 + Align4(|data|))
      && at + 12 + |data| <= |s| && s[at + 12..at + 12 + |data|] == data
    case Child(node) => Matches(s, str, node, depth, at)
    case Gap => Decode(s, str, at) == Nop(at + 4)
  }

  lemma {:induction false} HoldsTree(s: seq<Byte>, str: seq<Byte>, t: Tree, depth: nat, at: nat)
    requires Encodable(t, str, depth) && Holds(s, at, Encode(t, str, depth))
    ensures Matches(s, str, t, depth, at)
    decreases t, 1
  {
    hide Decode, EncodeBegin, EncodeAll, Word, AllMatches, Holds;
    TreeParts(s, str, t, depth, at);
    BeginReads(s, str, at, t.name);
    var inside := at + |EncodeBegin(t.name)|;
    HoldsAll(s, str, t.content, depth + 1, inside);
    WordDecodes(s, str, inside + |EncodeAll(t.content, str, depth + 1)|, END_NODE);
  }

  lemma {:induction false} HoldsAll(s: seq<Byte>, str: seq<Byte>, cs: seq<Content>, depth: nat, at: nat)
    requires (forall i :: 0 <= i < |cs| ==> ContentOk(cs[i], str, depth)) && Holds(s, at, EncodeAll(cs, str, depth))
    ensures AllMatches(s, str, cs, depth, at)
    decreases cs, 0
  {
    hide EncodeContent, ContentMatches;
    if cs != [] {
      HoldsParts(s, at, EncodeContent(cs[0], str, depth), EncodeAll(cs[1..], str, depth));
      HoldsContent(s, str, cs[0], depth, at);
      HoldsAll(s, str, cs[1..], depth, at + |EncodeContent(cs[0], str, depth)|);
    }
  }

  lemma {:induction false} HoldsContent(s: seq<Byte>, str: seq<Byte>, c: Content, depth: nat, at: nat)
    requires ContentOk(c, str, depth) && Holds(s, at, EncodeContent(c, str, depth))
    ensures at <= |s| && ContentMatches(s, str, c, depth, at)
    decreases c, 0
  {
    hide Decode, EncodeProp, Word;
    match c
    case Property(nameoff, data) => PropReads(s, str, at, nameoff, data);
    case Child(node) => HoldsTree(s, str, node, depth, at);
    case Gap => WordDecodes(s, str, at, NOP);
  }

  lemma TreeParts(s: seq<Byte>, str: seq<Byte>, t: Tree, depth: nat, at: nat)
    requires Encodable(t, str, depth) && Holds(s, at, Encode(t, str, depth))
    ensures var head, body := EncodeBegin(t.name), EncodeAll(t.content, str, depth + 1);
            && Holds(s, at, head) && Holds(s, at + |head|, body) && Holds(s, at + |head| + |body|, Word(END_NODE))
            && at + |head| + |body| + 4 <= |s|
  {
    hide EncodeBegin, EncodeAll, Word;
    var head, body := EncodeBegin(t.name), EncodeAll(t.content, str, depth + 1);
    HoldsParts(s, at, head + body, Word(END_NODE));
    HoldsParts(s, at, head, body);
  }

  // ----- reading such a block -----

  ghost function PathsAt(s: seq<Byte>, str: seq<Byte>, at: nat, stack: seq<Name>): seq<(nat, seq<Name>)>
    requires at <= |s|
  {
    Paths(Toks(s, str, at), stack)
  }

  ghost function PropsAt(s: seq<Byte>, str: seq<Byte>, at: nat, open: seq<nat>): seq<Owned>
    requires at <= |s|
  {
    Props(Toks(s, str, at), open)
  }

  /** One token of the stream. */
  lemma ReadStep(s: seq<Byte>, str: seq<Byte>, at: nat, stack: seq<Name>, open: seq<nat>)
    requires at <= |s|
    ensures var r := Decode(s, str, at);
            && (r.Begin? ==> PathsAt(s, str, at, stack) == [(at, (stack + [r.name])[1..])] + PathsAt(s, str, r.next, stack + [r.name]))
            && (r.Begin? ==> PropsAt(s, str, at, open) == PropsAt(s, str, r.next, open + [at]))
            && (r.EndNode? ==> PathsAt(s, str, at, stack) == PathsAt(s, str, r.next, Pop(stack)))
            && (r.EndNode? ==> PropsAt(s, str, at, open) == PropsAt(s, str, r.next, Pop(open)))
            && (r.Prop? || r.Nop? ==> PathsAt(s, str, at, stack) == PathsAt(s, str, r.next, stack))
            && (r.Nop? ==> PropsAt(s, str, at, open) == PropsAt(s, str, r.next, open))
            && (r.Prop? && open != [] ==>
                  PropsAt(s, str, at, open) == [Owned(open[|open| - 1], r.name, r.dataAt, r.len)] + PropsAt(s, str, r.next, open))
            && (r.End? ==> PathsAt(s, str, at, stack) == [] && PropsAt(s, str, at, open) == [])
  {
    hide Decode;
    var r, toks := Decode(s, str, at), Toks(s, str, at);
    if !r.End? && !r.Invalid? { assert toks[1..] == Toks(s, str, r.next); }
  }

  lemma EncodeLength(t: Tree, str: seq<Byte>, depth: nat)
    requires Encodable(t, str, depth)
    ensures |Encode(t, str, depth)| == |EncodeBegin(t.name)| + |EncodeAll(t.content, str, depth + 1)| + 4
  {
    hide EncodeBegin, EncodeAll, Word;
  }

  lemma {:induction false} TreeReads(s: seq<Byte>, str: seq<Byte>, t: Tree, depth: nat, root: bool, at: nat, stack: seq<Name>, open: seq<nat>)
    requires Encodable(t, str, depth) && Matches(s, str, t, depth, at) && !(depth == 0 && root)
    ensures var end := at + |Encode(t, str, depth)|;
            && end <= |s| && (Valid(s, str, at, depth, root) <==> Valid(s, str, end, depth, true))
            && PathsAt(s, str, at, stack) == TreePaths(t, str, depth, at, stack) + PathsAt(s, str, end, stack)
            && PropsAt(s, str, at, open) == TreeProps(t, str, depth, at) + PropsAt(s, str, end, open)
    decreases t, 1
  {
    hide Decode, Encode, EncodeBegin, EncodeAll, AllPaths, AllProps, PathsAt, PropsAt, Valid, AllMatches, ContentOk, Pop, TreePaths, TreeProps;
    EncodeLength(t, str, depth);
    TreeLists(t, str, depth, at, stack);
    var names, nodes := stack + [t.name], open + [at];
    PopLast(stack, t.name);
    PopLast(open, at);
    var inside := at + |EncodeBegin(t.name)|;
    var last := inside + |EncodeAll(t.content, str, depth + 1)|;
    ReadStep(s, str, at, stack, open);
    ValidToken(s, str, at, depth, root);
    AllReads(s, str, t.content, depth + 1, inside, names, nodes);
    ReadStep(s, str, last, names, nodes);
    ValidToken(s, str, last, depth + 1, true);
    Regroup([(at, names[1..])], AllPaths(t.content, str, depth + 1, inside, names), PathsAt(s, str, last + 4, stack));
  }

  lemma TreeLists(t: Tree, str: seq<Byte>, depth: nat, at: nat, stack: seq<Name>)
    requires Encodable(t, str, depth)
    ensures TreePaths(t, str, depth, at, stack)
         == [(at, (stack + [t.name])[1..])] + AllPaths(t.content, str, depth + 1, at + |EncodeBegin(t.name)|, stack + [t.name])
    ensures TreeProps(t, str, depth, at) == AllProps(t.content, str, depth + 1, at + |EncodeBegin(t.name)|, at)
  {
    hide AllPaths, AllProps, EncodeBegin;
  }

  lemma PopLast<T>(s: seq<T>, x: T)
    ensures Pop(s + [x]) == s && (s + [x])[|s + [x]| - 1] == x && s + [x] != []
  {
  }

  /** One step of the validator on a node's first and last token. */
  lemma ValidToken(s: seq<Byte>, str: seq<Byte>, at: nat, depth: int, root: bool)
    requires at <= |s|
    ensures var r := Decode(s, str, at);
            && (r.Begin? && !(depth == 0 && root) && depth + 1 <= MAX_DEPTH ==>
                  (Valid(s, str, at, depth, root) <==> Valid(s, str, r.next, depth + 1, true)))
            && (r.EndNode? && depth != 0 ==> (Valid(s, str, at, depth, root) <==> Valid(s, str, r.next, depth - 1, root)))
  {
  }

  lemma Regroup<T>(a: seq<T>, b: seq<T>, c: seq<T>)
    ensures a + (b + c) == (a + b) + c
  {
  }

  lemma {:induction false} AllReads(s: seq<Byte>, str: seq<Byte>, cs: seq<Content>, depth: nat, at: nat, stack: seq<Name>, open: seq<nat>)
    requires (forall i :: 0 <= i < |cs| ==> ContentOk(cs[i], str, depth)) && AllMatches(s, str, cs, depth, at) && depth > 0 && open != []
    ensures var end := at + |EncodeAll(cs, str, depth)|;
            && end <= |s| && (Valid(s, str, at, depth, true) <==> Valid(s, str, end, depth, true))
            && PathsAt(s, str, at, stack) == AllPaths(cs, str, depth, at, stack) + PathsAt(s, str, end, stack)
            && PropsAt(s, str, at, open) == AllProps(cs, str, depth, at, open[|open| - 1]) + PropsAt(s, str, end, open)
    decreases cs, 0
  {
    hide Decode, EncodeContent, ContentPaths, ContentProps, PathsAt, PropsAt, Valid, ContentMatches;
    if cs != [] {
      var next, rest := at + |EncodeContent(cs[0], str, depth)|, EncodeAll(cs[1..], str, depth);
      ContentReads(s, str, cs[0], depth, at, stack, open);
      AllReads(s, str, cs[1..], depth, next, stack, open);
      var end := next + |rest|;
      Regroup(ContentPaths(cs[0], str, depth, at, stack), AllPaths(cs[1..], str, depth, next, stack), PathsAt(s, str, end, stack));
      Regroup(ContentProps(cs[0], str, depth, at, open[|open| - 1]), AllProps(cs[1..], str, depth, next, open[|open| - 1]), PropsAt(s, str, end, open));
    }
  }

  lemma {:induction false} ContentReads(s: seq<Byte>, str: seq<Byte>, c: Content, depth: nat, at: nat, stack: seq<Name>, open: seq<nat>)
    requires ContentOk(c, str, depth) && at <= |s| && ContentMatches(s, str, c, depth, at) && depth > 0 && open != []
    ensures var end := at + |EncodeContent(c, str, depth)|;
            && end <= |s| && (Valid(s, str, at, depth, true) <==> Valid(s, str, end, depth, true))
            && PathsAt(s, str, at, stack) == ContentPaths(c, str, depth, at, stack) + PathsAt(s, str, end, stack)
            && PropsAt(s, str, at, open) == ContentProps(c, str, depth, at, open[|open| - 1]) + PropsAt(s, str, end, open)
    decreases c, 0
  {
    hide Decode, EncodeProp, Word, PathsAt, PropsAt;
    match c
    case Property(nameoff, data) => ReadStep(s, str, at, stack, open);
    case Child(node) => TreeReads(s, str, node, depth, true, at, stack, open);
    case Gap => ReadStep(s, str, at, stack, open);
  }

  // ----- whole blocks -----

  function Gaps(n: nat): (r: seq<Byte>)
    ensures |r| == 4 * n
  {
    if n == 0 then [] else Word(NOP) + Gaps(n - 1)
  }

  /** A structure block: the tree, NOP tokens around it, the END token, and any bytes behind it. */
  ghost function Block(t: Tree, str: seq<Byte>, before: nat, after: nat, junk: seq<Byte>): seq<Byte>
    requires Encodable(t, str, 0)
  {
    Gaps(before) + (Encode(t, str, 0) + (Gaps(after) + (Word(FdtTokens.END) + junk)))
  }

  ghost predicate GapsAt(s: seq<Byte>, str: seq<Byte>, at: nat, n: nat) {
    at + 4 * n <= |s| && forall i :: 0 <= i < n ==> Decode(s, str, at + 4 * i) == Nop(at + 4 * i + 4)
  }

  /** The block reads as that tree with so many NOP tokens before and behind it. */
  ghost predicate BlockMatches(s: seq<Byte>, str: seq<Byte>, t: Tree, before: nat, after: nat)
    requires Encodable(t, str, 0)
  {
    var end := 4 * before + |Encode(t, str, 0)|;
    && GapsAt(s, str, 0, before) && Matches(s, str, t, 0, 4 * before)
    && GapsAt(s, str, end, after) && Decode(s, str, end + 4 * after) == Item.End
  }

  lemma {:induction false} GapsHeld(s: seq<Byte>, str: seq<Byte>, at: nat, n: nat)
    requires Holds(s, at, Gaps(n))
    ensures GapsAt(s, str, at, n)
    decreases n
  {
    hide Decode, Word;
    if n > 0 {
      HoldsParts(s, at, Word(NOP), Gaps(n - 1));
      WordDecodes(s, str, at, NOP);
      GapsHeld(s, str, at + 4, n - 1);
      forall i | 0 <= i < n ensures Decode(s, str, at + 4 * i) == Nop(at + 4 * i + 4) {
        assert i > 0 ==> Decode(s, str, at + 4 + 4 * (i - 1)) == Nop(at + 4 + 4 * (i - 1) + 4);
      }
    }
  }

  lemma {:induction false} GapsRead(s: seq<Byte>, str: seq<Byte>, n: nat, depth: nat, root: bool, at: nat, stack: seq<Name>, open: seq<nat>)
    requires GapsAt(s, str, at, n)
    ensures var end := at + 4 * n;
            && (Valid(s, str, at, depth, root) <==> Valid(s, str, end, depth, root))
            && PathsAt(s, str, at, stack) == PathsAt(s, str, end, stack) && PropsAt(s, str, at, open) == PropsAt(s, str, end, open)
    decreases n
  {
    hide Decode, Word, PathsAt, PropsAt;
    if n > 0 {
      assert Decode(s, str, at + 4 * 0) == Nop(at + 4);
      ReadStep(s, str, at, stack, open);
      forall i | 0 <= i < n - 1 ensures Decode(s, str, at + 4 + 4 * i) == Nop(at + 4 + 4 * i + 4) {
        assert at + 4 + 4 * i == at + 4 * (i + 1);
      }
      GapsRead(s, str, n - 1, depth, root, at + 4, stack, open);
    }
  }

  /**
   Every block that encodes a tree is accepted by the validator, and the nodes and properties found in it are
   those of the tree, in preorder.
   */
  lemma {:induction false} BlockReads(s: seq<Byte>, str: seq<Byte>, t: Tree, before: nat, after: nat)
    requires Encodable(t, str, 0) && BlockMatches(s, str, t, before, after)
    ensures Valid(s, str, 0, 0, false)
    ensures PathsAt(s, str, 0, []) == TreePaths(t, str, 0, 4 * before, [])
    ensures PropsAt(s, str, 0, []) == TreeProps(t, str, 0, 4 * before)
  {
    hide Decode, PathsAt, PropsAt, Encode, TreePaths, TreeProps, GapsAt, Valid, Matches;
    GapsFit(s, str, 0, before);
    var end := 4 * before + |Encode(t, str, 0)|;
    GapsRead(s, str, before, 0, false, 0, [], []);
    TreeReads(s, str, t, 0, false, 4 * before, [], []);
    GapsFit(s, str, end, after);
    GapsRead(s, str, after, 0, true, end, [], []);
    ReadStep(s, str, end + 4 * after, [], []);
    ValidEnd(s, str, end + 4 * after);
  }

  lemma GapsFit(s: seq<Byte>, str: seq<Byte>, at: nat, n: nat)
    requires GapsAt(s, str, at, n)
    ensures at + 4 * n <= |s|
  {
  }

  lemma ValidEnd(s: seq<Byte>, str: seq<Byte>, at: nat)
    requires at <= |s| && Decode(s, str, at) == Item.End
    ensures Valid(s, str, at, 0, true)
  {
  }

  /** The encoding of a tree is such a block. */
  lemma BlockEncodes(t: Tree, str: seq<Byte>, before: nat, after: nat, junk: seq<Byte>)
    requires Encodable(t, str, 0)
    ensures BlockMatches(Block(t, str, before, after, junk), str, t, before, after)
  {
    hide Decode, Word, Encode, Gaps, Holds, Block, GapsAt, Matches;
    var s, end := Block(t, str, before, after, junk), 4 * before + |Encode(t, str, 0)|;
    BlockParts(t, str, before, after, junk);
    GapsHeld(s, str, 0, before);
    HoldsTree(s, str, t, 0, 4 * before);
    GapsHeld(s, str, end, after);
    WordDecodes(s, str, end + 4 * after, FdtTokens.END);
  }

  lemma BlockParts(t: Tree, str: seq<Byte>, before: nat, after: nat, junk: seq<Byte>)
    requires Encodable(t, str, 0)
    ensures var s, end := Block(t, str, before, after, junk), 4 * before + |Encode(t, str, 0)|;
            && Holds(s, 0, Gaps(before)) && Holds(s, 4 * before, Encode(t, str, 0)) && Holds(s, end, Gaps(after))
            && Holds(s, end + 4 * after, Word(FdtTokens.END)) && end + 4 * after + 4 <= |s|
  {
    hide Word, Encode, Gaps;
    var s, tree, tail := Block(t, str, before, after, junk), Encode(t, str, 0), Word(FdtTokens.END) + junk;
    HoldsItself(s);
    HoldsParts(s, 0, Gaps(before), tree + (Gaps(after) + tail));
    HoldsParts(s, 4 * before, tree, Gaps(after) + tail);
    HoldsParts(s, 4 * before + |tree|, Gaps(after), tail);
    HoldsParts(s, 4 * before + |tree| + 4 * after, Word(FdtTokens.END), junk);
  }

  lemma HoldsItself(s: seq<Byte>)
    ensures Holds(s, 0, s)
  {
    assert s[0..|s|] == s;
  }

  // ----- every accepted block encodes a tree -----

  /** The content of an open node, up to its end token. */
  lemma {:induction false} ParseContent(s: seq<Byte>, str: seq<Byte>, pos: nat, depth: nat) returns (cs: seq<Content>)
    requires pos <= |s| && 1 <= depth <= MAX_DEPTH && Valid(s, str, pos, depth, true)
    ensures (forall i :: 0 <= i < |cs| ==> ContentOk(cs[i], str, depth)) && AllMatches(s, str, cs, depth, pos)
    ensures var end := pos + |EncodeAll(cs, str, depth)|;
            end <= |s| && Decode(s, str, end) == EndNode(end + 4) && Valid(s, str, end + 4, depth - 1, true)
    decreases |s| - pos
  {
    hide Decode, EncodeProp, EncodeBegin;
    var r := Decode(s, str, pos);
    if r.EndNode? {
      EndLength(s, str, pos);
      cs := [];
    } else {
      var c := ParseOne(s, str, pos, depth);
      var rest := ParseContent(s, str, pos + |EncodeContent(c, str, depth)|, depth);
      cs := [c] + rest;
      Prepend(s, str, c, rest, depth, pos);
    }
  }

  /** One property, child or NOP of an open node. */
  lemma {:induction false} ParseOne(s: seq<Byte>, str: seq<Byte>, pos: nat, depth: nat) returns (c: Content)
    requires pos <= |s| && 1 <= depth <= MAX_DEPTH && Valid(s, str, pos, depth, true) && !Decode(s, str, pos).EndNode?
    ensures ContentOk(c, str, depth) && ContentMatches(s, str, c, depth, pos)
    ensures var next := pos + |EncodeContent(c, str, depth)|; pos < next <= |s| && Valid(s, str, next, depth, true)
    decreases |s| - pos, 0
  {
    hide Decode, EncodeContent, ContentOk, ContentMatches, Valid;
    var r := Decode(s, str, pos);
    ValidOpen(s, str, pos, depth);
    if r.Begin? {
      BeginLength(s, str, pos);
      var cs := ParseContent(s, str, r.next, depth + 1);
      c := Child(Tree(r.name, cs));
      ChildParsed(s, str, pos, depth, r.name, cs);
    } else if r.Prop? {
      c := PropParsed(s, str, pos, depth);
    } else {
      c := Gap;
      NopParsed(s, str, pos, depth);
    }
  }

  /** One step of the validator inside a node. */
  lemma ValidOpen(s: seq<Byte>, str: seq<Byte>, pos: nat, depth: nat)
    requires pos <= |s| && depth >= 1 && Valid(s, str, pos, depth, true)
    ensures var r := Decode(s, str, pos);
            && !r.End? && !r.Invalid? && (r.Begin? ==> depth + 1 <= MAX_DEPTH && Valid(s, str, r.next, depth + 1, true))
            && (r.Prop? || r.Nop? ==> Valid(s, str, r.next, depth, true))
  {
    hide Decode;
  }

  lemma BeginLength(s: seq<Byte>, str: seq<Byte>, pos: nat)
    requires pos <= |s| && Decode(s, str, pos).Begin?
    ensures var r := Decode(s, str, pos); 0 !in r.name && r.next == pos + |EncodeBegin(r.name)|
  {
    hide Be32, Padded, Word;
  }

  lemma ChildParsed(s: seq<Byte>, str: seq<Byte>, pos: nat, depth: nat, name: Name, cs: seq<Content>)
    requires pos <= |s| && depth + 1 <= MAX_DEPTH && 0 !in name && Decode(s, str, pos) == Begin(name, pos + |EncodeBegin(name)|)
    requires (forall i :: 0 <= i < |cs| ==> ContentOk(cs[i], str, depth + 1)) && AllMatches(s, str, cs, depth + 1, pos + |EncodeBegin(name)|)
    requires var end := pos + |EncodeBegin(name)| + |EncodeAll(cs, str, depth + 1)|; end <= |s| && Decode(s, str, end) == EndNode(end + 4)
    ensures var c := Child(Tree(name, cs));
            && ContentOk(c, str, depth) && ContentMatches(s, str, c, depth, pos)
            && |EncodeContent(c, str, depth)| == |EncodeBegin(name)| + |EncodeAll(cs, str, depth + 1)| + 4
  {
    hide Decode, EncodeBegin, EncodeAll, AllMatches;
    assert Encodable(Tree(name, cs), str, depth);
  }

  lemma PropParsed(s: seq<Byte>, str: seq<Byte>, pos: nat, depth: nat) returns (c: Content)
    requires pos <= |s| && Decode(s, str, pos).Prop?
    ensures ContentOk(c, str, depth) && ContentMatches(s, str, c, depth, pos)
    ensures Decode(s, str, pos).next == pos + |EncodeContent(c, str, depth)|
  {
    hide StrEnd, EncodeProp;
    var r := Decode(s, str, pos);
    c := Property(Be32(s, pos + 8), s[r.dataAt..r.dataAt + r.len]);
    hide Be32;
    assert |EncodeProp(c.nameoff, c.data)| == 12 + Align4(r.len);
  }

  lemma NopParsed(s: seq<Byte>, str: seq<Byte>, pos: nat, depth: nat)
    requires pos <= |s| && Decode(s, str, pos).Nop?
    ensures ContentOk(Gap, str, depth) && ContentMatches(s, str, Gap, depth, pos)
    ensures Decode(s, str, pos).next == pos + |EncodeContent(Gap, str, depth)|
  {
  }

  lemma Prepend(s: seq<Byte>, str: seq<Byte>, c: Content, rest: seq<Content>, depth: nat, pos: nat)
    requires ContentOk(c, str, depth) && pos <= |s| && ContentMatches(s, str, c, depth, pos)
    requires forall i :: 0 <= i < |rest| ==> ContentOk(rest[i], str, depth)
    requires AllMatches(s, str, rest, depth, pos + |EncodeContent(c, str, depth)|)
    ensures var cs := [c] + rest;
            && (forall i :: 0 <= i < |cs| ==> ContentOk(cs[i], str, depth)) && AllMatches(s, str, cs, depth, pos)
            && EncodeAll(cs, str, depth) == EncodeContent(c, str, depth) + EncodeAll(rest, str, depth)
  {
    hide ContentOk, ContentMatches, EncodeContent;
    assert ([c] + rest)[1..] == rest;
  }

  /** The NOP tokens from `pos` on. */
  lemma {:induction false} ParseGaps(s: seq<Byte>, str: seq<Byte>, pos: nat, root: bool) returns (n: nat)
    requires pos <= |s| && Valid(s, str, pos, 0, root)
    ensures GapsAt(s, str, pos, n) && Valid(s, str, pos + 4 * n, 0, root)
    ensures var r := Decode(s, str, pos + 4 * n); if root then r.End? else r.Begin?
    decreases |s| - pos
  {
    hide Decode;
    var r := Decode(s, str, pos);
    if r.Nop? {
      NopParsed(s, str, pos, 0);
      var m := ParseGaps(s, str, r.next, root);
      n := m + 1;
      forall i | 0 <= i < n ensures Decode(s, str, pos + 4 * i) == Nop(pos + 4 * i + 4) {
        assert i > 0 ==> Decode(s, str, pos + 4 + 4 * (i - 1)) == Nop(pos + 4 + 4 * (i - 1) + 4);
      }
    } else {
      n := 0;
    }
  }

  /** Every block the validator accepts encodes a tree. */
  lemma AcceptedIsTree(s: seq<Byte>, str: seq<Byte>) returns (t: Tree, before: nat, after: nat)
    requires Valid(s, str, 0, 0, false)
    ensures Encodable(t, str, 0) && BlockMatches(s, str, t, before, after)
  {
    hide Decode, EncodeBegin, EncodeAll, AllMatches, GapsAt, ContentOk;
    before := ParseGaps(s, str, 0, false);
    GapsFit(s, str, 0, before);
    var pos := 4 * before;
    var r := Decode(s, str, pos);
    BeginLength(s, str, pos);
    assert 0 + 4 * before == pos && Valid(s, str, r.next, 1, true);
    var cs := ParseContent(s, str, r.next, 1);
    t := Tree(r.name, cs);
    assert Encodable(t, str, 0);
    after := ParseGaps(s, str, r.next + |EncodeAll(cs, str, 1)| + 4, true);
  }

  lemma EndLength(s: seq<Byte>, str: seq<Byte>, pos: nat)
    requires pos <= |s| && Decode(s, str, pos).EndNode?
    ensures Decode(s, str, pos) == EndNode(pos + 4)
  {
  }

  /** Path lookup in the blob is the first match in the tree's preorder, or -1. */
  lemma PathAgrees(s: seq<Byte>, str: seq<Byte>, t: Tree, before: nat, after: nat, comps: seq<Name>)
    requires Encodable(t, str, 0) && BlockMatches(s, str, t, before, after)
    ensures Wanted(s, str, 0, [], comps) == FirstNode(TreePaths(t, str, 0, 4 * before, []), comps)
  {
    BlockReads(s, str, t, before, after);
  }

  // ----- properties of one node -----

  /** `sub`, at depth `sd` and offset `sa`, is a node of the tree. */
  ghost predicate TreeHas(t: Tree, str: seq<Byte>, depth: nat, at: nat, sub: Tree, sd: nat, sa: nat)
    requires Encodable(t, str, depth)
    decreases t, 1
  {
    (sub == t && sd == depth && sa == at) || AllHas(t.content, str, depth + 1, at + |EncodeBegin(t.name)|, sub, sd, sa)
  }

  ghost predicate AllHas(cs: seq<Content>, str: seq<Byte>, depth: nat, at: nat, sub: Tree, sd: nat, sa: nat)
    requires forall i :: 0 <= i < |cs| ==> ContentOk(cs[i], str, depth)
    decreases cs, 0
  {
    cs != [] && (ContentHas(cs[0], str, depth, at, sub, sd, sa) || AllHas(cs[1..], str, depth, at + |EncodeContent(cs[0], str, depth)|, sub, sd, sa))
  }

  ghost predicate ContentHas(c: Content, str: seq<Byte>, depth: nat, at: nat, sub: Tree, sd: nat, sa: nat)
    requires ContentOk(c, str, depth)
    decreases c, 0
  {
    c.Child? && TreeHas(c.node, str, depth, at, sub, sd, sa)
  }

  /** The first property of that name among a node's own content. */
  ghost function OwnFirst(cs: seq<Content>, str: seq<Byte>, depth: nat, at: nat, name: Name): Found
    requires forall i :: 0 <= i < |cs| ==> ContentOk(cs[i], str, depth)
  {
    if cs == [] then Absent
    else if cs[0].Property? && PropName(cs[0], str, depth) == name then Present(at + 12, |cs[0].data|)
    else OwnFirst(cs[1..], str, depth, at + |EncodeContent(cs[0], str, depth)|, name)
  }

  ghost function PropName(c: Content, str: seq<Byte>, depth: nat): Name
    requires ContentOk(c, str, depth) && c.Property?
  {
    str[c.nameoff..StrEnd(str, c.nameoff)]
  }

  lemma {:induction false} FirstPropJoin(a: seq<Owned>, b: seq<Owned>, owner: nat, name: Name)
    ensures FirstProp(a + b, owner, name) == if FirstProp(a, owner, name).Present? then FirstProp(a, owner, name) else FirstProp(b, owner, name)
    decreases |a|
  {
    if a == [] {
      assert a + b == b;
    } else {
      assert (a + b)[1..] == a[1..] + b;
      FirstPropJoin(a[1..], b, owner, name);
    }
  }

  /** Properties below a node are owned by offsets of its own encoding. */
  lemma {:induction false} TreeOwners(t: Tree, str: seq<Byte>, depth: nat, at: nat)
    requires Encodable(t, str, depth)
    ensures forall p :: p in TreeProps(t, str, depth, at) ==> at <= p.owner < at + |Encode(t, str, depth)|
    decreases t, 1
  {
    AllOwners(t.content, str, depth + 1, at + |EncodeBegin(t.name)|, at);
  }

  lemma {:induction false} AllOwners(cs: seq<Content>, str: seq<Byte>, depth: nat, at: nat, owner: nat)
    requires (forall i :: 0 <= i < |cs| ==> ContentOk(cs[i], str, depth)) && owner < at
    ensures forall p :: p in AllProps(cs, str, depth, at, owner) ==> p.owner == owner || at <= p.owner < at + |EncodeAll(cs, str, depth)|
    decreases cs, 0
  {
    if cs != [] {
      ContentOwners(cs[0], str, depth, at, owner);
      AllOwners(cs[1..], str, depth, at + |EncodeContent(cs[0], str, depth)|, owner);
    }
  }

  lemma {:induction false} ContentOwners(c: Content, str: seq<Byte>, depth: nat, at: nat, owner: nat)
    requires ContentOk(c, str, depth)
    ensures forall p :: p in ContentProps(c, str, depth, at, owner) ==> p.owner == owner || (c.Child? && at <= p.owner < at + |EncodeContent(c, str, depth)|)
    decreases c, 0
  {
    match c
    case Property(_, _) =>
    case Child(node) => TreeOwners(node, str, depth, at);
    case Gap =>
  }

  // The properties of a node found in the whole tree are those in its own content.

  lemma {:induction false} OwnProps(cs: seq<Content>, str: seq<Byte>, depth: nat, at: nat, owner: nat, name: Name)
    requires (forall i :: 0 <= i < |cs| ==> ContentOk(cs[i], str, depth)) && owner < at
    ensures FirstProp(AllProps(cs, str, depth, at, owner), owner, name) == OwnFirst(cs, str, depth, at, name)
    decreases |cs|
  {
    if cs != [] {
      var first, rest := ContentProps(cs[0], str, depth, at, owner), at + |EncodeContent(cs[0], str, depth)|;
      FirstPropJoin(first, AllProps(cs[1..], str, depth, rest, owner), owner, name);
      OwnProps(cs[1..], str, depth, rest, owner, name);
      if cs[0].Child? {
        TreeOwners(cs[0].node, str, depth, at);
        NotAmong(first, owner, name);
      }
    }
  }

  /** Whatever tree a node is part of, its first property of a name is the first in its own content, never a descendant's. */
  lemma {:induction false} NodeProps(t: Tree, str: seq<Byte>, depth: nat, at: nat, sub: Tree, sd: nat, sa: nat, name: Name)
    requires Encodable(t, str, depth) && TreeHas(t, str, depth, at, sub, sd, sa)
    ensures Encodable(sub, str, sd) && at <= sa < at + |Encode(t, str, depth)|
    ensures FirstProp(TreeProps(t, str, depth, at), sa, name) == OwnFirst(sub.content, str, sd + 1, sa + |EncodeBegin(sub.name)|, name)
    decreases t, 1
  {
    var inside := at + |EncodeBegin(t.name)|;
    if sub == t && sd == depth && sa == at {
      OwnProps(t.content, str, depth + 1, inside, at, name);
    } else {
      AllNodeProps(t.content, str, depth + 1, inside, at, sub, sd, sa, name);
    }
  }

  lemma {:induction false} AllNodeProps(cs: seq<Content>, str: seq<Byte>, depth: nat, at: nat, owner: nat, sub: Tree, sd: nat, sa: nat, name: Name)
    requires (forall i :: 0 <= i < |cs| ==> ContentOk(cs[i], str, depth)) && owner < at && AllHas(cs, str, depth, at, sub, sd, sa)
    ensures Encodable(sub, str, sd) && at <= sa < at + |EncodeAll(cs, str, depth)|
    ensures FirstProp(AllProps(cs, str, depth, at, owner), sa, name) == OwnFirst(sub.content, str, sd + 1, sa + |EncodeBegin(sub.name)|, name)
    decreases cs, 0
  {
    var first, next := ContentProps(cs[0], str, depth, at, owner), at + |EncodeContent(cs[0], str, depth)|;
    var rest := AllProps(cs[1..], str, depth, next, owner);
    FirstPropJoin(first, rest, sa, name);
    if ContentHas(cs[0], str, depth, at, sub, sd, sa) {
      ContentNodeProps(cs[0], str, depth, at, owner, sub, sd, sa, name);
      AllOwners(cs[1..], str, depth, next, owner);
      NotAmong(rest, sa, name);
    } else {
      AllNodeProps(cs[1..], str, depth, next, owner, sub, sd, sa, name);
      ContentOwners(cs[0], str, depth, at, owner);
      NotAmong(first, sa, name);
    }
  }

  lemma {:induction false} ContentNodeProps(c: Content, str: seq<Byte>, depth: nat, at: nat, owner: nat, sub: Tree, sd: nat, sa: nat, name: Name)
    requires ContentOk(c, str, depth) && ContentHas(c, str, depth, at, sub, sd, sa)
    ensures Encodable(sub, str, sd) && at <= sa < at + |EncodeContent(c, str, depth)|
    ensures FirstProp(ContentProps(c, str, depth, at, owner), sa, name) == OwnFirst(sub.content, str, sd + 1, sa + |EncodeBegin(sub.name)|, name)
    decreases c, 0
  {
    match c
    case Child(node) => NodeProps(node, str, depth, at, sub, sd, sa, name);
  }

  lemma {:induction false} NotAmong(props: seq<Owned>, owner: nat, name: Name)
    requires forall p :: p in props ==> p.owner != owner
    ensures FirstProp(props, owner, name) == Absent
  {
    if props != [] { NotAmong(props[1..], owner, name); }
  }

  /** The value of the first property of that name among a node's own content. */
  datatype Datum = NoDatum | Datum(bytes: seq<Byte>)

  function OwnValue(cs: seq<Content>, str: seq<Byte>, name: Name): Datum {
    if cs == [] then NoDatum
    else if cs[0].Property? && cs[0].nameoff <= |str| && str[cs[0].nameoff..StrEnd(str, cs[0].nameoff)] == name then Datum(cs[0].data)
    else OwnValue(cs[1..], str, name)
  }

  /** What a property lookup delivers. */
  ghost function Delivered(s: seq<Byte>, f: Found): Datum {
    if f.Present? && f.dataAt + f.len <= |s| then Datum(s[f.dataAt..f.dataAt + f.len]) else NoDatum
  }

  lemma {:induction false} OwnDelivered(s: seq<Byte>, str: seq<Byte>, cs: seq<Content>, depth: nat, at: nat, name: Name)
    requires (forall i :: 0 <= i < |cs| ==> ContentOk(cs[i], str, depth)) && AllMatches(s, str, cs, depth, at)
    ensures Delivered(s, OwnFirst(cs, str, depth, at, name)) == OwnValue(cs, str, name)
    ensures var f := OwnFirst(cs, str, depth, at, name); f.Present? ==> f.dataAt + f.len <= |s|
    decreases |cs|
  {
    hide Decode, StrEnd;
    if cs != [] {
      OwnDelivered(s, str, cs[1..], depth, at + |EncodeContent(cs[0], str, depth)|, name);
    }
  }

  lemma {:induction false} SubMatches(s: seq<Byte>, str: seq<Byte>, t: Tree, depth: nat, at: nat, sub: Tree, sd: nat, sa: nat)
    requires Encodable(t, str, depth) && Matches(s, str, t, depth, at) && TreeHas(t, str, depth, at, sub, sd, sa)
    ensures Encodable(sub, str, sd) && Matches(s, str, sub, sd, sa)
    decreases t, 1
  {
    hide Decode;
    if !(sub == t && sd == depth && sa == at) {
      AllSubMatches(s, str, t.content, depth + 1, at + |EncodeBegin(t.name)|, sub, sd, sa);
    }
  }

  lemma {:induction false} AllSubMatches(s: seq<Byte>, str: seq<Byte>, cs: seq<Content>, depth: nat, at: nat, sub: Tree, sd: nat, sa: nat)
    requires (forall i :: 0 <= i < |cs| ==> ContentOk(cs[i], str, depth)) && AllMatches(s, str, cs, depth, at) && AllHas(cs, str, depth, at, sub, sd, sa)
    ensures Encodable(sub, str, sd) && Matches(s, str, sub, sd, sa)
    decreases cs, 0
  {
    hide Decode;
    if ContentHas(cs[0], str, depth, at, sub, sd, sa) {
      ContentSubMatches(s, str, cs[0], depth, at, sub, sd, sa);
    } else {
      AllSubMatches(s, str, cs[1..], depth, at + |EncodeContent(cs[0], str, depth)|, sub, sd, sa);
    }
  }

  lemma {:induction false} ContentSubMatches(s: seq<Byte>, str: seq<Byte>, c: Content, depth: nat, at: nat, sub: Tree, sd: nat, sa: nat)
    requires ContentOk(c, str, depth) && at <= |s| && ContentMatches(s, str, c, depth, at) && ContentHas(c, str, depth, at, sub, sd, sa)
    ensures Encodable(sub, str, sd) && Matches(s, str, sub, sd, sa)
    decreases c, 0
  {
    hide Decode;
    match c
    case Child(node) => SubMatches(s, str, node, depth, at, sub, sd, sa);
  }

  /** Property lookup in the blob delivers the bytes of the first property of that name in the node's own content. */
  lemma PropAgrees(s: seq<Byte>, str: seq<Byte>, t: Tree, before: nat, after: nat, sub: Tree, sd: nat, sa: nat, name: Name)
    requires Encodable(t, str, 0) && BlockMatches(s, str, t, before, after) && TreeHas(t, str, 0, 4 * before, sub, sd, sa)
    ensures Delivered(s, Prop1(s, str, 0, [], sa, name)) == OwnValue(sub.content, str, name)
    ensures Prop1(s, str, 0, [], sa, name).Present? <==> OwnValue(sub.content, str, name) != NoDatum
  {
    hide Decode, GapsAt, TreeHas, Matches, AllMatches, Delivered, OwnValue, OwnFirst, EncodeBegin, EncodeAll, Encode;
    BlockReads(s, str, t, before, after);
    NodeProps(t, str, 0, 4 * before, sub, sd, sa, name);
    SubMatches(s, str, t, 0, 4 * before, sub, sd, sa);
    Contents(s, str, sub, sd, sa);
    OwnDelivered(s, str, sub.content, sd + 1, sa + |EncodeBegin(sub.name)|, name);
    DeliveredIf(s, OwnFirst(sub.content, str, sd + 1, sa + |EncodeBegin(sub.name)|, name));
  }

  lemma Contents(s: seq<Byte>, str: seq<Byte>, t: Tree, depth: nat, at: nat)
    requires Encodable(t, str, depth) && Matches(s, str, t, depth, at)
    ensures AllMatches(s, str, t.content, depth + 1, at + |EncodeBegin(t.name)|)
  {
  }

  lemma DeliveredIf(s: seq<Byte>, f: Found)
    requires f.Present? ==> f.dataAt + f.len <= |s|
    ensures f.Present? <==> Delivered(s, f) != NoDatum
  {
  }

  // ----- every node of the tree is a node of the blob -----

  lemma {:induction false} PathsHasNode(toks: seq<Tok>, stack: seq<Name>, off: nat, path: seq<Name>)
    requires (off, path) in Paths(toks, stack)
    ensures HasNode(toks, off)
    decreases |toks|
  {
    var first, rest := toks[0], toks[1..];
    if first.TBegin? && first.at == off {
      assert toks[0].at == off;
    } else {
      PathsHasNode(rest, if first.TBegin? then stack + [first.name] else if first.TEnd? then Pop(stack) else stack, off, path);
      var i :| 0 <= i < |rest| && rest[i].TBegin? && rest[i].at == off;
      assert toks[i + 1] == rest[i];
    }
  }

  lemma {:induction false} NodeListed(t: Tree, str: seq<Byte>, depth: nat, at: nat, stack: seq<Name>, sub: Tree, sd: nat, sa: nat) returns (path: seq<Name>)
    requires Encodable(t, str, depth) && TreeHas(t, str, depth, at, sub, sd, sa)
    ensures (sa, path) in TreePaths(t, str, depth, at, stack)
    decreases t, 1
  {
    if sub == t && sd == depth && sa == at {
      path := (stack + [t.name])[1..];
    } else {
      path := AllListed(t.content, str, depth + 1, at + |EncodeBegin(t.name)|, stack + [t.name], sub, sd, sa);
    }
  }

  lemma {:induction false} AllListed(cs: seq<Content>, str: seq<Byte>, depth: nat, at: nat, stack: seq<Name>, sub: Tree, sd: nat, sa: nat) returns (path: seq<Name>)
    requires (forall i :: 0 <= i < |cs| ==> ContentOk(cs[i], str, depth)) && AllHas(cs, str, depth, at, sub, sd, sa)
    ensures (sa, path) in AllPaths(cs, str, depth, at, stack)
    decreases cs, 0
  {
    if ContentHas(cs[0], str, depth, at, sub, sd, sa) {
      path := ContentListed(cs[0], str, depth, at, stack, sub, sd, sa);
    } else {
      path := AllListed(cs[1..], str, depth, at + |EncodeContent(cs[0], str, depth)|, stack, sub, sd, sa);
    }
  }

  lemma {:induction false} ContentListed(c: Content, str: seq<Byte>, depth: nat, at: nat, stack: seq<Name>, sub: Tree, sd: nat, sa: nat) returns (path: seq<Name>)
    requires ContentOk(c, str, depth) && ContentHas(c, str, depth, at, sub, sd, sa)
    ensures (sa, path) in ContentPaths(c, str, depth, at, stack)
    decreases c, 0
  {
    match c
    case Child(node) => path := NodeListed(node, str, depth, at, stack, sub, sd, sa);
  }

  lemma NodeFound(s: seq<Byte>, str: seq<Byte>, t: Tree, before: nat, after: nat, sub: Tree, sd: nat, sa: nat)
    requires Encodable(t, str, 0) && BlockMatches(s, str, t, before, after) && TreeHas(t, str, 0, 4 * before, sub, sd, sa)
    ensures Node1(s, str, 0, sa)
  {
    hide Encodable, TreeHas, TreePaths, TreeProps, Paths, Props, Toks, Valid, HasNode, BlockMatches;
    BlockReads(s, str, t, before, after);
    var path := NodeListed(t, str, 0, 4 * before, [], sub, sd, sa);
    PathsHasNode(Toks(s, str, 0), [], sa, path);
  }

  // ----- paths as strings -----

  function Join(comps: seq<Name>): seq<Byte> {
    if comps == [] then [] else [SLASH] + comps[0] + Join(comps[1..])
  }

  /** Splitting undoes joining for components that are not empty and contain no slash. */
  lemma {:induction false} SplitJoin(before: seq<Byte>, comps: seq<Name>)
    requires comps != [] && forall i :: 0 <= i < |comps| ==> comps[i] != [] && SLASH !in comps[i]
    ensures Comps(before + Join(comps), |before| + 1) == comps
    decreases |comps|
  {
    hide SlashEnd, Comps, Join;
    var path, start := before + Join(comps), |before| + 1;
    var first, rest := comps[0], Join(comps[1..]);
    var next, end := before + [SLASH] + first, start + |first|;
    JoinStep(before, comps);
    Middle(before + [SLASH], first, rest);
    if |comps| > 1 {
      SplitJoin(next, comps[1..]);
    }
    CompsStep(path, start, end);
    assert comps == [first] + comps[1..];
  }

  lemma Middle(a: seq<Byte>, b: seq<Byte>, c: seq<Byte>)
    ensures (a + b + c)[|a|..|a| + |b|] == b
    ensures c != [] ==> (a + b + c)[|a| + |b|] == c[0]
  {
  }

  lemma {:induction false} JoinStep(before: seq<Byte>, comps: seq<Name>)
    requires comps != []
    ensures before + Join(comps) == before + [SLASH] + comps[0] + Join(comps[1..])
    ensures if |comps| > 1 then Join(comps[1..]) != [] && Join(comps[1..])[0] == SLASH else Join(comps[1..]) == []
  {
    hide Join;
    JoinFirst(comps);
    Regroup(before, [SLASH] + comps[0], Join(comps[1..]));
    Regroup(before, [SLASH], comps[0]);
    if |comps| > 1 {
      JoinFirst(comps[1..]);
    } else {
      JoinNone(comps[1..]);
    }
  }

  lemma {:induction false} JoinFirst(comps: seq<Name>)
    requires comps != []
    ensures Join(comps) == [SLASH] + comps[0] + Join(comps[1..])
  {
  }

  lemma {:induction false} JoinNone(comps: seq<Name>)
    requires comps == []
    ensures Join(comps) == []
  {
  }

  lemma CompsStep(path: seq<Byte>, start: nat, end: nat)
    requires start < end <= |path| && SLASH !in path[start..end] && (end < |path| ==> path[end] == SLASH)
    ensures Comps(path, start) == [path[start..end]] + if end < |path| then Comps(path, end + 1) else []
  {
    SlashEndAt(path, start, end);
  }

  lemma {:induction false} SlashEndAt(path: seq<Byte>, p: nat, e: nat)
    requires p <= e <= |path| && SLASH !in path[p..e] && (e < |path| ==> path[e] == SLASH)
    ensures SlashEnd(path, p) == e
    decreases e - p
  {
    if p < e {
      assert path[p] in path[p..e] && path[p + 1..e] == path[p..e][1..];
      SlashEndAt(path, p + 1, e);
    }
  }
}
