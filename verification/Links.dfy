/**
 Intrusive doubly linked lists whose nodes are numbered: several lists share one array of links,
 and -1 ends a list. Used by the buddy free lists and by the slab lists.
 */
module Links {

  datatype Link = Link(prev: int, next: int)

  function Nth(s: seq<nat>, i: int): int {
    if 0 <= i < |s| then s[i] else -1
  }

  /** `s` is a doubly linked list through the links. */
  ghost predicate Linked(ls: seq<Link>, s: seq<nat>) {
    && (forall i :: 0 <= i < |s| ==> s[i] < |ls|)
    && (forall i {:trigger ls[s[i]]} :: 0 <= i < |s| ==>
      ls[s[i]].next == Nth(s, i + 1) && ls[s[i]].prev == Nth(s, i - 1))
  }

  ghost predicate NoDup(s: seq<nat>) {
    forall i, j :: 0 <= i < j < |s| ==> s[i] != s[j]
  }

  ghost predicate Disjoint(s: seq<nat>, t: seq<nat>) {
    forall x :: x in s ==> x !in t
  }

  /** No node is on two lists, or twice on one. */
  ghost predicate Distinct(lists: seq<seq<nat>>) {
    && (forall o :: 0 <= o < |lists| ==> NoDup(lists[o]))
    && (forall o, o' :: 0 <= o < |lists| && 0 <= o' < |lists| && o != o' ==> Disjoint(lists[o], lists[o']))
  }

  ghost predicate OnList(lists: seq<seq<nat>>, p: nat) {
    exists o :: 0 <= o < |lists| && p in lists[o]
  }

  ghost predicate LinksOk(ls: seq<Link>, heads: seq<int>, lists: seq<seq<nat>>) {
    && |heads| == |lists|
    && Distinct(lists)
    && (forall o :: 0 <= o < |lists| ==> Linked(ls, lists[o]) && heads[o] == Nth(lists[o], 0))
  }

  /** `t` is `s` with position `i` left out. */
  ghost predicate IsWithout(t: seq<nat>, s: seq<nat>, i: nat) {
    && i < |s| && |t| == |s| - 1
    && (forall j {:trigger t[j]} :: 0 <= j < |t| ==> t[j] == if j < i then s[j] else s[j + 1])
  }

  function Without(s: seq<nat>, i: nat): (t: seq<nat>)
    requires i < |s|
    ensures IsWithout(t, s, i)
  {
    s[..i] + s[i + 1..]
  }

  lemma WithoutMembers(t: seq<nat>, s: seq<nat>, i: nat)
    requires IsWithout(t, s, i) && NoDup(s)
    ensures forall x :: x in t <==> x in s && x != s[i]
  {
    forall x ensures x in t <==> x in s && x != s[i] {
      if x in t {
        var j :| 0 <= j < |t| && t[j] == x;
        assert x == s[if j < i then j else j + 1];
      }
      if x in s && x != s[i] {
        var j :| 0 <= j < |s| && s[j] == x;
        assert t[if j < i then j else j - 1] == x;
      }
    }
  }

  /** The links after linking `p` in front of the list that starts at `h`. */
  ghost predicate PushEffect(ls: seq<Link>, ms: seq<Link>, h: int, p: nat) {
    && |ls| == |ms| && p < |ls|
    && ms[p].next == h && ms[p].prev == -1
    && (forall x :: 0 <= x < |ls| && x != p ==>
      ms[x].next == ls[x].next && ms[x].prev == if x == h then p else ls[x].prev)
  }

  /** The links after unlinking `t`, whose neighbours are `p` and `n`. */
  ghost predicate UnlinkEffect(ls: seq<Link>, ms: seq<Link>, p: int, n: int, t: nat) {
    && |ls| == |ms|
    && (forall x :: 0 <= x < |ls| && x != t ==>
      ms[x].next == (if x == p then n else ls[x].next) && ms[x].prev == (if x == n then p else ls[x].prev))
  }

  lemma PushedLinked(ls: seq<Link>, ms: seq<Link>, s: seq<nat>, p: nat)
    requires Linked(ls, s) && NoDup(s) && p !in s && PushEffect(ls, ms, Nth(s, 0), p)
    ensures Linked(ms, [p] + s) && NoDup([p] + s)
  {
    var t := [p] + s;
    forall i | 0 <= i < |t|
      ensures t[i] < |ms| && ms[t[i]].next == Nth(t, i + 1) && ms[t[i]].prev == Nth(t, i - 1)
    {
      if i > 0 {
        assert t[i] == s[i - 1];
        assert i > 1 ==> s[0] != s[i - 1];
      }
    }
  }

  lemma UnlinkedAt(ls: seq<Link>, ms: seq<Link>, s: seq<nat>, t: seq<nat>, i: nat, j: nat)
    requires Linked(ls, s) && NoDup(s) && IsWithout(t, s, i) && j < |t|
    requires UnlinkEffect(ls, ms, Nth(s, i - 1), Nth(s, i + 1), s[i])
    ensures t[j] < |ms| && t[j] != s[i] && ms[t[j]].next == Nth(t, j + 1) && ms[t[j]].prev == Nth(t, j - 1)
  {
    var h := if j >= i then j + 1 else j;
    var x := s[h];
    assert t[j] == x && x != s[i];
    assert ls[x].next == Nth(s, h + 1) && ls[x].prev == Nth(s, h - 1);
    assert x == Nth(s, i - 1) <==> h == i - 1;
    assert x == Nth(s, i + 1) <==> h == i + 1;
  }

  lemma UnlinkedLinked(ls: seq<Link>, ms: seq<Link>, s: seq<nat>, t: seq<nat>, i: nat)
    requires Linked(ls, s) && NoDup(s) && IsWithout(t, s, i)
    requires UnlinkEffect(ls, ms, Nth(s, i - 1), Nth(s, i + 1), s[i])
    ensures Linked(ms, t) && NoDup(t) && s[i] !in t
  {
    forall j | 0 <= j < |t|
      ensures t[j] < |ms| && t[j] != s[i] && ms[t[j]].next == Nth(t, j + 1) && ms[t[j]].prev == Nth(t, j - 1)
    {
      UnlinkedAt(ls, ms, s, t, i, j);
    }
  }

  /** A list that none of the touched nodes belongs to keeps its links. */
  lemma LinkedElsewhere(ls: seq<Link>, ms: seq<Link>, s: seq<nat>)
    requires Linked(ls, s) && |ls| == |ms|
    requires forall x :: x in s && x < |ls| ==> ls[x].next == ms[x].next && ls[x].prev == ms[x].prev
    ensures Linked(ms, s)
  {
  }

  /** Pushing `p` in front of list `o`. */
  lemma PushLinks(ls: seq<Link>, ms: seq<Link>, heads: seq<int>, lists: seq<seq<nat>>, o: nat, p: nat)
    requires LinksOk(ls, heads, lists) && o < |lists| && !OnList(lists, p) && PushEffect(ls, ms, heads[o], p)
    ensures LinksOk(ms, heads[o := p], lists[o := [p] + lists[o]])
  {
    PushedLinked(ls, ms, lists[o], p);
    var l' := lists[o := [p] + lists[o]];
    forall k | 0 <= k < |lists| && k != o ensures Linked(ms, l'[k]) && Disjoint(l'[k], l'[o]) && Disjoint(l'[o], l'[k]) {
      assert Disjoint(lists[o], lists[k]);
      LinkedElsewhere(ls, ms, lists[k]);
    }
  }

  /** Unlinking the element at position `i` of list `o`. */
  lemma RemoveLinks(ls: seq<Link>, ms: seq<Link>, heads: seq<int>, lists: seq<seq<nat>>, t: seq<nat>, o: nat, i: nat)
    requires LinksOk(ls, heads, lists) && o < |lists| && IsWithout(t, lists[o], i)
    requires UnlinkEffect(ls, ms, Nth(lists[o], i - 1), Nth(lists[o], i + 1), lists[o][i])
    ensures LinksOk(ms, if i == 0 then heads[o := Nth(lists[o], 1)] else heads, lists[o := t])
    ensures !OnList(lists[o := t], lists[o][i])
  {
    UnlinkedLinked(ls, ms, lists[o], t, i);
    forall k | 0 <= k < |lists| && k != o
      ensures Linked(ms, lists[k]) && Disjoint(lists[k], t) && Disjoint(t, lists[k]) && lists[o][i] !in lists[k]
    {
      forall x | x in t ensures x in lists[o] {
        var j :| 0 <= j < |t| && t[j] == x;
      }
      assert Disjoint(lists[o], lists[k]) && lists[o][i] in lists[o];
      assert i > 0 ==> lists[o][i - 1] in lists[o];
      assert i + 1 < |lists[o]| ==> lists[o][i + 1] in lists[o];
      LinkedElsewhere(ls, ms, lists[k]);
    }
  }

  // ----- appending at the tail -----

  /** The links after linking `p` behind the list that ends at `t`. */
  ghost predicate AppendEffect(ls: seq<Link>, ms: seq<Link>, t: int, p: nat) {
    && |ls| == |ms| && p < |ls|
    && ms[p].prev == t && ms[p].next == -1
    && (forall x :: 0 <= x < |ls| && x != p ==>
      ms[x].prev == ls[x].prev && ms[x].next == if x == t then p else ls[x].next)
  }

  function Last(s: seq<nat>): int {
    Nth(s, |s| - 1)
  }

  lemma AppendedLinked(ls: seq<Link>, ms: seq<Link>, s: seq<nat>, p: nat)
    requires Linked(ls, s) && NoDup(s) && p !in s && AppendEffect(ls, ms, Last(s), p)
    ensures Linked(ms, s + [p]) && NoDup(s + [p])
  {
    var t := s + [p];
    forall i | 0 <= i < |t|
      ensures t[i] < |ms| && ms[t[i]].next == Nth(t, i + 1) && ms[t[i]].prev == Nth(t, i - 1)
    {
      if i < |s| {
        assert t[i] == s[i] && s[i] in s;
        assert i < |s| - 1 ==> s[i] != s[|s| - 1];
      }
    }
  }

  /** Appending `p` to list `o`. */
  lemma AppendLinks(ls: seq<Link>, ms: seq<Link>, heads: seq<int>, lists: seq<seq<nat>>, o: nat, p: nat)
    requires LinksOk(ls, heads, lists) && o < |lists| && !OnList(lists, p) && AppendEffect(ls, ms, Last(lists[o]), p)
    ensures LinksOk(ms, if lists[o] == [] then heads[o := p] else heads, lists[o := lists[o] + [p]])
  {
    AppendedLinked(ls, ms, lists[o], p);
    var l' := lists[o := lists[o] + [p]];
    assert lists[o] != [] ==> Last(lists[o]) in lists[o];
    forall k | 0 <= k < |lists| && k != o ensures Linked(ms, l'[k]) && Disjoint(l'[k], l'[o]) && Disjoint(l'[o], l'[k]) {
      assert Disjoint(lists[o], lists[k]) && Disjoint(lists[k], lists[o]);
      LinkedElsewhere(ls, ms, lists[k]);
    }
  }

  // ----- singly linked lists -----

  /** `s` is the list that starts at `head` and follows `nx`. */
  ghost predicate Chain(nx: seq<int>, head: int, s: seq<nat>) {
    && head == Nth(s, 0)
    && (forall i :: 0 <= i < |s| ==> s[i] < |nx|)
    && (forall i {:trigger nx[s[i]]} :: 0 <= i < |s| ==> nx[s[i]] == Nth(s, i + 1))
  }

  lemma ChainPush(nx: seq<int>, head: int, s: seq<nat>, p: nat)
    requires Chain(nx, head, s) && p < |nx| && p !in s
    ensures Chain(nx[p := head], p, [p] + s)
  {
    var t := [p] + s;
    forall i | 0 <= i < |t| ensures nx[p := head][t[i]] == Nth(t, i + 1) {
      if i > 0 { assert t[i] == s[i - 1] && s[i - 1] in s; }
    }
  }

  lemma ChainAppend(nx: seq<int>, head: int, s: seq<nat>, p: nat)
    requires Chain(nx, head, s) && NoDup(s) && p < |nx| && p !in s
    ensures s == [] ==> Chain(nx[p := -1], p, [p])
    ensures s != [] ==> Chain(nx[p := -1][s[|s| - 1] := p], head, s + [p])
  {
    if s != [] {
      var t, ny := s + [p], nx[p := -1][s[|s| - 1] := p];
      forall i | 0 <= i < |t| ensures t[i] < |ny| && ny[t[i]] == Nth(t, i + 1) {
        if i < |s| {
          assert t[i] == s[i] && s[i] in s;
          assert i < |s| - 1 ==> s[i] != s[|s| - 1];
        }
      }
    }
  }

  lemma ChainTail(nx: seq<int>, head: int, s: seq<nat>, x: int)
    requires Chain(nx, head, s) && NoDup(s) && s != []
    ensures Chain(nx[s[0] := x], nx[s[0]], s[1..])
  {
    var t := s[1..];
    forall i | 0 <= i < |t| ensures nx[s[0] := x][t[i]] == Nth(t, i + 1) { assert t[i] == s[i + 1]; }
  }

  /** The list without its first element. */
  lemma ChainRest(nx: seq<int>, s: seq<nat>)
    requires Chain(nx, Nth(s, 0), s) && s != []
    ensures s[0] < |nx| && nx[s[0]] == Nth(s[1..], 0) && Chain(nx, Nth(s[1..], 0), s[1..])
  {
    assert forall i :: 0 <= i < |s[1..]| ==> s[1..][i] == s[i + 1];
  }

  /** Removing position `i > 0`: its predecessor skips it. */
  lemma ChainSkip(nx: seq<int>, head: int, s: seq<nat>, i: nat)
    requires Chain(nx, head, s) && NoDup(s) && 0 < i < |s|
    ensures Chain(nx[s[i - 1] := nx[s[i]]][s[i] := -1], head, Without(s, i))
  {
    var t, ny := Without(s, i), nx[s[i - 1] := nx[s[i]]][s[i] := -1];
    forall j | 0 <= j < |t| ensures t[j] < |ny| && ny[t[j]] == Nth(t, j + 1) {
      var h := if j < i then j else j + 1;
      assert t[j] == s[h] && s[h] != s[i];
      assert h != i - 1 ==> s[h] != s[i - 1];
    }
  }

  /** Removing position `i`, whether it is the head or not. */
  lemma ChainWithout(nx: seq<int>, head: int, s: seq<nat>, i: nat, ny: seq<int>, head': int)
    requires Chain(nx, head, s) && NoDup(s) && i < |s|
    requires i == 0 ==> ny == nx[s[0] := -1] && head' == nx[s[0]]
    requires i > 0 ==> ny == nx[s[i - 1] := nx[s[i]]][s[i] := -1] && head' == head
    ensures Chain(ny, head', Minus(s, s[i]))
    ensures Last(Minus(s, s[i])) == if Last(s) == s[i] then Nth(s, i - 1) else Last(s)
  {
    hide Minus;
    MinusAt(s, i);
    assert Last(s) == s[i] <==> i == |s| - 1;
    hide NoDup;
    if i == 0 {
      ChainTail(nx, head, s, -1);
      assert Without(s, 0) == s[1..];
    } else {
      ChainSkip(nx, head, s, i);
    }
  }

  /** Linking `p` in before position `i`. */
  lemma ChainInsert(nx: seq<int>, head: int, s: seq<nat>, i: nat, p: nat)
    requires Chain(nx, head, s) && NoDup(s) && i <= |s| && p < |nx| && p !in s
    ensures i == 0 ==> Chain(nx[p := head], p, [p] + s)
    ensures i > 0 ==> Chain(nx[p := Nth(s, i)][s[i - 1] := p], head, s[..i] + [p] + s[i..])
  {
    if i == 0 {
      ChainPush(nx, head, s, p);
    } else {
      var t, ny := s[..i] + [p] + s[i..], nx[p := Nth(s, i)][s[i - 1] := p];
      forall j | 0 <= j < |t| ensures t[j] < |ny| && ny[t[j]] == Nth(t, j + 1) {
        var h := if j < i then j else j - 1;
        if j != i {
          assert t[j] == s[h] && s[h] in s;
          assert h != i - 1 ==> s[h] != s[i - 1];
        } else {
          assert s[i - 1] in s;
        }
      }
    }
  }

  lemma NoDupAppend(s: seq<nat>, x: nat)
    requires NoDup(s) && x !in s
    ensures NoDup(s + [x]) && forall y :: y in s + [x] <==> y in s || y == x
  {
  }

  lemma NoDupTail(s: seq<nat>)
    requires NoDup(s) && s != []
    ensures NoDup(s[1..]) && forall y :: y in s[1..] <==> y in s && y != s[0]
  {
    assert s == [s[0]] + s[1..];
    assert forall i, j :: 0 <= i < j < |s[1..]| ==> s[1..][i] == s[i + 1] && s[1..][j] == s[j + 1];
  }

  lemma HasFirst(s: seq<nat>)
    ensures s != [] ==> s[0] in s
  {
  }

  // ----- removing an element by value -----

  /** `s` without its first `x`; the order of the rest is kept. */
  function Minus(s: seq<nat>, x: nat): (t: seq<nat>)
    ensures |t| <= |s|
  {
    if s == [] then [] else if s[0] == x then s[1..] else [s[0]] + Minus(s[1..], x)
  }

  lemma {:induction false} MinusAbsent(s: seq<nat>, x: nat)
    requires x !in s
    ensures Minus(s, x) == s
  {
    if s != [] { MinusAbsent(s[1..], x); }
  }

  lemma {:induction false} MinusAt(s: seq<nat>, i: nat)
    requires NoDup(s) && i < |s|
    ensures Minus(s, s[i]) == Without(s, i)
  {
    hide NoDup, Without;
    if i == 0 {
      WithoutFirst(s);
    } else {
      FirstDiffers(s, i);
      NoDupTail(s);
      MinusAt(s[1..], i - 1);
      WithoutTail(s, i);
    }
  }

  lemma FirstDiffers(s: seq<nat>, i: nat)
    requires NoDup(s) && 0 < i < |s|
    ensures s[0] != s[i]
  {
  }

  lemma WithoutFirst(s: seq<nat>)
    requires s != []
    ensures Without(s, 0) == s[1..]
  {
  }

  lemma WithoutTail(s: seq<nat>, i: nat)
    requires 0 < i < |s|
    ensures Without(s, i) == [s[0]] + Without(s[1..], i - 1)
  {
  }

  lemma MinusFacts(s: seq<nat>, x: nat)
    requires NoDup(s)
    ensures NoDup(Minus(s, x)) && forall y :: y in Minus(s, x) <==> y in s && y != x
    ensures x in s ==> |Minus(s, x)| == |s| - 1
  {
    if x in s {
      var i :| 0 <= i < |s| && s[i] == x;
      MinusAt(s, i);
      var t := Without(s, i);
      WithoutMembers(t, s, i);
      forall a, b | 0 <= a < b < |t| ensures t[a] != t[b] {
        assert s[if a < i then a else a + 1] != s[if b < i then b else b + 1];
      }
    } else {
      MinusAbsent(s, x);
    }
  }
}
