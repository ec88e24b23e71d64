/**
 Lookups of kernel/src/fdt.c in a block that encodes a tree, stated over the tree alone: which offsets are nodes, a path
 followed by a property, and the search for a compatible string.
 */
module FdtLookup {
  import opened ByteSeqs
  import opened FdtTokens
  import opened Fdt
  import opened FdtTree

  // ----- every node of the blob is a node of the tree -----

  lemma {:induction false} ListedNode(t: Tree, str: seq<Byte>, depth: nat, at: nat, stack: seq<Name>, off: nat, path: seq<Name>) returns (sub: Tree, sd: nat)
    requires Encodable(t, str, depth) && (off, path) in TreePaths(t, str, depth, at, stack)
    ensures TreeHas(t, str, depth, at, sub, sd, off)
    decreases t, 1
  {
    if (off, path) == (at, (stack + [t.name])[1..]) {
      sub, sd := t, depth;
    } else {
      sub, sd := AllListedNode(t.content, str, depth + 1, at + |EncodeBegin(t.name)|, stack + [t.name], off, path);
    }
  }

  lemma {:induction false} AllListedNode(cs: seq<Content>, str: seq<Byte>, depth: nat, at: nat, stack: seq<Name>, off: nat, path: seq<Name>)
    returns (sub: Tree, sd: nat)
    requires (forall i :: 0 <= i < |cs| ==> ContentOk(cs[i], str, depth)) && (off, path) in AllPaths(cs, str, depth, at, stack)
    ensures AllHas(cs, str, depth, at, sub, sd, off)
    decreases cs, 0
  {
    if (off, path) in ContentPaths(cs[0], str, depth, at, stack) {
      sub, sd := ContentListedNode(cs[0], str, depth, at, stack, off, path);
    } else {
      sub, sd := AllListedNode(cs[1..], str, depth, at + |EncodeContent(cs[0], str, depth)|, stack, off, path);
    }
  }

  lemma {:induction false} ContentListedNode(c: Content, str: seq<Byte>, depth: nat, at: nat, stack: seq<Name>, off: nat, path: seq<Name>)
    returns (sub: Tree, sd: nat)
    requires ContentOk(c, str, depth) && (off, path) in ContentPaths(c, str, depth, at, stack)
    ensures ContentHas(c, str, depth, at, sub, sd, off)
    decreases c, 0
  {
    match c
    case Child(node) => sub, sd := ListedNode(node, str, depth, at, stack, off, path);
  }

  lemma {:induction false} HasNodePath(toks: seq<Tok>, stack: seq<Name>, off: nat) returns (path: seq<Name>)
    requires HasNode(toks, off)
    ensures (off, path) in Paths(toks, stack)
    decreases |toks|
  {
    var i :| 0 <= i < |toks| && toks[i].TBegin? && toks[i].at == off;
    var first, rest := toks[0], toks[1..];
    if i == 0 {
      path := (stack + [first.name])[1..];
    } else {
      assert rest[i - 1] == toks[i];
      path := HasNodePath(rest, if first.TBegin? then stack + [first.name] else if first.TEnd? then Pop(stack) else stack, off);
    }
  }

  /** Nodes of the blob are exactly the nodes of the tree, by offset. */
  lemma NodeIff(s: seq<Byte>, str: seq<Byte>, t: Tree, before: nat, after: nat, off: nat)
    requires Encodable(t, str, 0) && BlockMatches(s, str, t, before, after)
    ensures Node1(s, str, 0, off) <==> exists sub, sd :: TreeHas(t, str, 0, 4 * before, sub, sd, off)
  {
    hide Encodable, TreeHas, TreePaths, TreeProps, Paths, Props, Toks, Valid, HasNode, BlockMatches;
    BlockReads(s, str, t, before, after);
    if Node1(s, str, 0, off) {
      var path := HasNodePath(Toks(s, str, 0), [], off);
      var sub, sd := ListedNode(t, str, 0, 4 * before, [], off, path);
    }
    if sub, sd :| TreeHas(t, str, 0, 4 * before, sub, sd, off) {
      NodeFound(s, str, t, before, after, sub, sd, off);
    }
  }

  // ----- a path, then a property -----

  datatype Sub = NoSub | Sub(node: Tree)

  /** The first node in preorder with that path. */
  function TreeFind(t: Tree, stack: seq<Name>, path: seq<Name>): Sub
    decreases t, 1
  {
    if (stack + [t.name])[1..] == path then Sub(t) else AllFind(t.content, stack + [t.name], path)
  }

  function AllFind(cs: seq<Content>, stack: seq<Name>, path: seq<Name>): Sub
    decreases cs, 0
  {
    if cs == [] then NoSub else
      var r := ContentFind(cs[0], stack, path);
      if r.Sub? then r else AllFind(cs[1..], stack, path)
  }

  function ContentFind(c: Content, stack: seq<Name>, path: seq<Name>): Sub
    decreases c, 0
  {
    if c.Child? then TreeFind(c.node, stack, path) else NoSub
  }

  lemma {:induction false} FirstNodeJoin(a: seq<(nat, seq<Name>)>, b: seq<(nat, seq<Name>)>, path: seq<Name>)
    ensures FirstNode(a + b, path) == if FirstNode(a, path) >= 0 then FirstNode(a, path) else FirstNode(b, path)
    ensures FirstNode(a, path) >= -1
    decreases |a|
  {
    if a == [] {
      assert a + b == b;
    } else {
      assert (a + b)[1..] == a[1..] + b;
      FirstNodeJoin(a[1..], b, path);
    }
  }

  /** The node found among the offsets is the one found in the tree. */
  ghost predicate FindsIn(r: int, f: Sub) {
    r >= -1 && (r == -1 <==> f == NoSub)
  }

  lemma {:induction false} FindAgrees(t: Tree, str: seq<Byte>, depth: nat, at: nat, stack: seq<Name>, path: seq<Name>) returns (sd: nat)
    requires Encodable(t, str, depth)
    ensures var r, f := FirstNode(TreePaths(t, str, depth, at, stack), path), TreeFind(t, stack, path);
            FindsIn(r, f) && (f.Sub? ==> TreeHas(t, str, depth, at, f.node, sd, r))
    decreases t, 1
  {
    hide FirstNode, AllPaths, AllFind, AllHas, EncodeBegin;
    var inside, names := at + |EncodeBegin(t.name)|, stack + [t.name];
    FirstNodeJoin([(at, names[1..])], AllPaths(t.content, str, depth + 1, inside, names), path);
    OneNode(at, names[1..], path);
    sd := AllFindAgrees(t.content, str, depth + 1, inside, names, path);
    if names[1..] == path { sd := depth; }
  }

  lemma OneNode(at: nat, own: seq<Name>, path: seq<Name>)
    ensures FirstNode([(at, own)], path) == if own == path then at else -1
  {
  }

  lemma {:induction false} AllFindAgrees(cs: seq<Content>, str: seq<Byte>, depth: nat, at: nat, stack: seq<Name>, path: seq<Name>) returns (sd: nat)
    requires forall i :: 0 <= i < |cs| ==> ContentOk(cs[i], str, depth)
    ensures var r, f := FirstNode(AllPaths(cs, str, depth, at, stack), path), AllFind(cs, stack, path);
            FindsIn(r, f) && (f.Sub? ==> AllHas(cs, str, depth, at, f.node, sd, r))
    decreases cs, 0
  {
    hide ContentPaths, ContentFind, ContentHas, ContentOk, EncodeContent;
    sd := 0;
    if cs != [] {
      var next := at + |EncodeContent(cs[0], str, depth)|;
      FirstNodeJoin(ContentPaths(cs[0], str, depth, at, stack), AllPaths(cs[1..], str, depth, next, stack), path);
      sd := ContentFindAgrees(cs[0], str, depth, at, stack, path);
      if ContentFind(cs[0], stack, path) == NoSub {
        sd := AllFindAgrees(cs[1..], str, depth, next, stack, path);
      }
    }
  }

  lemma {:induction false} ContentFindAgrees(c: Content, str: seq<Byte>, depth: nat, at: nat, stack: seq<Name>, path: seq<Name>) returns (sd: nat)
    requires ContentOk(c, str, depth)
    ensures var r, f := FirstNode(ContentPaths(c, str, depth, at, stack), path), ContentFind(c, stack, path);
            FindsIn(r, f) && (f.Sub? ==> ContentHas(c, str, depth, at, f.node, sd, r))
    decreases c, 0
  {
    sd := 0;
    if c.Child? {
      sd := FindAgrees(c.node, str, depth, at, stack, path);
    }
  }

  /**
   A path lookup followed by a property lookup: the offset is that of a node exactly if the tree has a node of that
   path, and then the bytes are those of the first own property of the first such node.
   */
  lemma LookupAgrees(s: seq<Byte>, str: seq<Byte>, t: Tree, before: nat, after: nat, path: seq<Name>, name: Name)
    requires Encodable(t, str, 0) && BlockMatches(s, str, t, before, after)
    ensures var off, f := Wanted(s, str, 0, [], path), TreeFind(t, [], path);
            && FindsIn(off, f)
            && (f.Sub? ==> Node1(s, str, 0, off) && Delivered(s, Prop1(s, str, 0, [], off, name)) == OwnValue(f.node.content, str, name))
  {
    hide Encodable, BlockMatches, TreeHas, TreePaths, TreeFind, FirstNode, Prop1, Node1, Delivered, OwnValue, Wanted;
    PathAgrees(s, str, t, before, after, path);
    var sd := FindAgrees(t, str, 0, 4 * before, [], path);
    var off, f := Wanted(s, str, 0, [], path), TreeFind(t, [], path);
    if f.Sub? {
      NodeFound(s, str, t, before, after, f.node, sd, off);
      PropAgrees(s, str, t, before, after, f.node, sd, off, name);
    }
  }

  // ----- compatible strings -----

  /** A property that lists the string, by the tree's own data. */
  ghost predicate ContentLists(c: Content, str: seq<Byte>, want: Name) {
    && c.Property? && c.nameoff <= |str| && str[c.nameoff..StrEnd(str, c.nameoff)] == COMPATIBLE
    && Lists(c.data, want)
  }

  /** The offset of the node that owns the first such property, or -1. */
  ghost function TreeCompatible(t: Tree, str: seq<Byte>, depth: nat, at: nat, want: Name): int
    requires Encodable(t, str, depth)
    decreases t, 1
  {
    AllCompatible(t.content, str, depth + 1, at + |EncodeBegin(t.name)|, at, want)
  }

  ghost function AllCompatible(cs: seq<Content>, str: seq<Byte>, depth: nat, at: nat, owner: nat, want: Name): int
    requires forall i :: 0 <= i < |cs| ==> ContentOk(cs[i], str, depth)
    decreases cs, 0
  {
    if cs == [] then -1 else
      var r := ContentCompatible(cs[0], str, depth, at, owner, want);
      if r >= 0 then r else AllCompatible(cs[1..], str, depth, at + |EncodeContent(cs[0], str, depth)|, owner, want)
  }

  ghost function ContentCompatible(c: Content, str: seq<Byte>, depth: nat, at: nat, owner: nat, want: Name): int
    requires ContentOk(c, str, depth)
    decreases c, 0
  {
    if c.Child? then TreeCompatible(c.node, str, depth, at, want) else if ContentLists(c, str, want) then owner else -1
  }

  lemma {:induction false} FirstCompatibleJoin(s: seq<Byte>, a: seq<Owned>, b: seq<Owned>, want: Name)
    ensures FirstCompatible(s, a + b, want) == if FirstCompatible(s, a, want) >= 0 then FirstCompatible(s, a, want) else FirstCompatible(s, b, want)
    ensures FirstCompatible(s, a, want) >= -1
    decreases |a|
  {
    hide IsCompatible;
    if a == [] {
      assert a + b == b;
    } else {
      assert (a + b)[1..] == a[1..] + b;
      FirstCompatibleJoin(s, a[1..], b, want);
    }
  }

  lemma {:induction false} TreeCompatAgrees(s: seq<Byte>, str: seq<Byte>, t: Tree, depth: nat, at: nat, want: Name)
    requires Encodable(t, str, depth) && Matches(s, str, t, depth, at)
    ensures FirstCompatible(s, TreeProps(t, str, depth, at), want) == TreeCompatible(t, str, depth, at, want)
    decreases t, 1
  {
    hide Decode, FirstCompatible;
    AllCompatAgrees(s, str, t.content, depth + 1, at + |EncodeBegin(t.name)|, at, want);
  }

  lemma {:induction false} AllCompatAgrees(s: seq<Byte>, str: seq<Byte>, cs: seq<Content>, depth: nat, at: nat, owner: nat, want: Name)
    requires (forall i :: 0 <= i < |cs| ==> ContentOk(cs[i], str, depth)) && AllMatches(s, str, cs, depth, at)
    ensures FirstCompatible(s, AllProps(cs, str, depth, at, owner), want) == AllCompatible(cs, str, depth, at, owner, want)
    decreases cs, 0
  {
    hide Decode, ContentProps, ContentCompatible, ContentMatches, ContentOk, EncodeContent;
    if cs != [] {
      var next := at + |EncodeContent(cs[0], str, depth)|;
      ContentCompatAgrees(s, str, cs[0], depth, at, owner, want);
      AllCompatAgrees(s, str, cs[1..], depth, next, owner, want);
      FirstCompatibleJoin(s, ContentProps(cs[0], str, depth, at, owner), AllProps(cs[1..], str, depth, next, owner), want);
    }
  }

  lemma {:induction false} ContentCompatAgrees(s: seq<Byte>, str: seq<Byte>, c: Content, depth: nat, at: nat, owner: nat, want: Name)
    requires ContentOk(c, str, depth) && at <= |s| && ContentMatches(s, str, c, depth, at)
    ensures FirstCompatible(s, ContentProps(c, str, depth, at, owner), want) == ContentCompatible(c, str, depth, at, owner, want)
    decreases c, 0
  {
    hide Decode, Lists;
    match c
    case Property(nameoff, data) =>
      assert ContentProps(c, str, depth, at, owner)[1..] == [];
    case Child(node) => TreeCompatAgrees(s, str, node, depth, at, want);
    case Gap =>
  }

  /** The search for a compatible string in the blob is the search in the tree's own data. */
  lemma CompatibleAgrees(s: seq<Byte>, str: seq<Byte>, t: Tree, before: nat, after: nat, want: Name)
    requires Encodable(t, str, 0) && BlockMatches(s, str, t, before, after)
    ensures Compat1(s, str, 0, [], want) == TreeCompatible(t, str, 0, 4 * before, want)
  {
    hide Decode, GapsAt, Matches, TreeCompatible, FirstCompatible, TreeProps, Encodable;
    BlockReads(s, str, t, before, after);
    TreeCompatAgrees(s, str, t, 0, 4 * before, want);
  }

  // What is found is a node of the tree with such a property, and nothing is found exactly if no node has one.

  ghost predicate OwnLists(cs: seq<Content>, str: seq<Byte>, want: Name) {
    exists i :: 0 <= i < |cs| && ContentLists(cs[i], str, want)
  }

  lemma {:induction false} CompatibleNode(t: Tree, str: seq<Byte>, depth: nat, at: nat, want: Name) returns (sub: Tree, sd: nat)
    requires Encodable(t, str, depth)
    ensures var r := TreeCompatible(t, str, depth, at, want);
            r >= -1 && (r >= 0 ==> TreeHas(t, str, depth, at, sub, sd, r) && OwnLists(sub.content, str, want))
    decreases t, 1
  {
    hide AllCompatible, AllHas, EncodeBegin, OwnLists;
    var own;
    own, sub, sd := AllCompatibleNode(t.content, str, depth + 1, at + |EncodeBegin(t.name)|, at, want);
    if own { sub, sd := t, depth; }
  }

  lemma {:induction false} AllCompatibleNode(cs: seq<Content>, str: seq<Byte>, depth: nat, at: nat, owner: nat, want: Name)
    returns (own: bool, sub: Tree, sd: nat)
    requires forall i :: 0 <= i < |cs| ==> ContentOk(cs[i], str, depth)
    ensures var r := AllCompatible(cs, str, depth, at, owner, want);
            && r >= -1 && (r >= 0 && own ==> r == owner && OwnLists(cs, str, want))
            && (r >= 0 && !own ==> AllHas(cs, str, depth, at, sub, sd, r) && OwnLists(sub.content, str, want))
    decreases cs, 0
  {
    hide ContentCompatible, ContentHas, ContentOk, EncodeContent, ContentLists;
    if cs == [] {
      own, sub, sd := false, Tree([], []), 0;
    } else {
      own, sub, sd := ContentCompatibleNode(cs[0], str, depth, at, owner, want);
      if ContentCompatible(cs[0], str, depth, at, owner, want) < 0 {
        var next := at + |EncodeContent(cs[0], str, depth)|;
        own, sub, sd := AllCompatibleNode(cs[1..], str, depth, next, owner, want);
        if OwnLists(cs[1..], str, want) {
          var i :| 0 <= i < |cs[1..]| && ContentLists(cs[1..][i], str, want);
          assert ContentLists(cs[i + 1], str, want);
        }
      }
    }
  }

  lemma {:induction false} ContentCompatibleNode(c: Content, str: seq<Byte>, depth: nat, at: nat, owner: nat, want: Name)
    returns (own: bool, sub: Tree, sd: nat)
    requires ContentOk(c, str, depth)
    ensures var r := ContentCompatible(c, str, depth, at, owner, want);
            && r >= -1 && (r >= 0 && own ==> r == owner && ContentLists(c, str, want))
            && (r >= 0 && !own ==> ContentHas(c, str, depth, at, sub, sd, r) && OwnLists(sub.content, str, want))
    decreases c, 0
  {
    hide ContentLists, OwnLists;
    if c.Child? {
      own := false;
      sub, sd := CompatibleNode(c.node, str, depth, at, want);
    } else {
      own, sub, sd := true, Tree([], []), 0;
    }
  }

  lemma {:induction false} CompatibleNone(t: Tree, str: seq<Byte>, depth: nat, at: nat, want: Name, sub: Tree, sd: nat, sa: nat)
    requires Encodable(t, str, depth) && TreeHas(t, str, depth, at, sub, sd, sa) && OwnLists(sub.content, str, want)
    ensures TreeCompatible(t, str, depth, at, want) >= 0
    decreases t, 1
  {
    hide AllCompatible, AllHas, EncodeBegin, OwnLists;
    AllCompatibleNone(t.content, str, depth + 1, at + |EncodeBegin(t.name)|, at, want, sub, sd, sa);
  }

  lemma {:induction false} AllCompatibleNone(cs: seq<Content>, str: seq<Byte>, depth: nat, at: nat, owner: nat, want: Name, sub: Tree, sd: nat, sa: nat)
    requires forall i :: 0 <= i < |cs| ==> ContentOk(cs[i], str, depth)
    requires OwnLists(cs, str, want) || (AllHas(cs, str, depth, at, sub, sd, sa) && OwnLists(sub.content, str, want))
    ensures AllCompatible(cs, str, depth, at, owner, want) >= 0
    decreases cs, 0
  {
    hide ContentHas, ContentOk, EncodeContent, ContentLists, ContentCompatible;
    var next := at + |EncodeContent(cs[0], str, depth)|;
    if ContentLists(cs[0], str, want) || (ContentHas(cs[0], str, depth, at, sub, sd, sa) && OwnLists(sub.content, str, want)) {
      ContentCompatibleNone(cs[0], str, depth, at, owner, want, sub, sd, sa);
    } else {
      if i :| 0 <= i < |cs| && ContentLists(cs[i], str, want) { assert cs[1..][i - 1] == cs[i]; }
      AllCompatibleNone(cs[1..], str, depth, next, owner, want, sub, sd, sa);
    }
  }

  lemma {:induction false} ContentCompatibleNone(c: Content, str: seq<Byte>, depth: nat, at: nat, owner: nat, want: Name, sub: Tree, sd: nat, sa: nat)
    requires ContentOk(c, str, depth)
    requires ContentLists(c, str, want) || (ContentHas(c, str, depth, at, sub, sd, sa) && OwnLists(sub.content, str, want))
    ensures ContentCompatible(c, str, depth, at, owner, want) >= 0
    decreases c, 0
  {
    if c.Child? {
      hide ContentOk;
      CompatibleNone(c.node, str, depth, at, want, sub, sd, sa);
    }
  }

  /** A node is found exactly if some node of the tree lists the string in a property of its own. */
  lemma CompatibleExact(s: seq<Byte>, str: seq<Byte>, t: Tree, before: nat, after: nat, want: Name)
    requires Encodable(t, str, 0) && BlockMatches(s, str, t, before, after)
    ensures Compat1(s, str, 0, [], want) >= 0 <==>
      exists sub, sd, sa :: TreeHas(t, str, 0, 4 * before, sub, sd, sa) && OwnLists(sub.content, str, want)
    ensures Compat1(s, str, 0, [], want) >= 0 ==>
      exists sub, sd :: TreeHas(t, str, 0, 4 * before, sub, sd, Compat1(s, str, 0, [], want)) && OwnLists(sub.content, str, want)
  {
    hide Encodable, BlockMatches, TreeHas, OwnLists, TreeCompatible, Compat1;
    CompatibleAgrees(s, str, t, before, after, want);
    var found, depth := CompatibleNode(t, str, 0, 4 * before, want);
    if sub, sd, sa :| TreeHas(t, str, 0, 4 * before, sub, sd, sa) && OwnLists(sub.content, str, want) {
      CompatibleNone(t, str, 0, 4 * before, want, sub, sd, sa);
    }
  }
}
