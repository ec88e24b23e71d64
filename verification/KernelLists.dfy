/**
 The linked structures of kernel/src/sched.c, wait.c and thread.c. Threads, wait entries and wait
 queues are numbered; the fields of their structs are columns, and -1 is the null pointer.
 */
module KernelLists {
  import opened Links

  /** FIFO of runnable threads: `next` links, head and tail. */
  class RunQueue {
    var next: seq<int>
    var head: int
    var tail: int
    ghost var items: seq<nat>

    ghost predicate Valid()
      reads this
    {
      Chain(next, head, items) && tail == Last(items) && NoDup(items)
    }

    constructor (threads: nat)
      ensures Valid() && items == [] && |next| == threads
    {
      next, head, tail, items := seq(threads, _ => -1), -1, -1, [];
    }

    /** Room for one more thread. */
    method Extend()
      requires Valid()
      modifies this
      ensures Valid() && items == old(items) && |next| == old(|next|) + 1
    {
      next := next + [-1];
    }

    method Enqueue(t: nat)
      requires Valid() && t < |next| && t !in items
      modifies this
      ensures Valid() && items == old(items) + [t] && |next| == old(|next|)
    {
      ChainAppend(next, head, items, t);
      NoDupAppend(items, t);
      next := next[t := -1];
      if tail < 0 {
        head, tail := t, t;
      } else {
        next := next[tail := t];
        tail := t;
      }
      items := items + [t];
    }

    method Pop() returns (t: int)
      requires Valid()
      modifies this
      ensures Valid() && t == Nth(old(items), 0) && |next| == old(|next|)
      ensures items == if old(items) == [] then [] else old(items)[1..]
    {
      t := head;
      if t < 0 { return; }
      ChainTail(next, head, items, -1);
      NoDupTail(items);
      head := next[t];
      if head < 0 { tail := -1; }
      next := next[t := -1];
      items := items[1..];
    }

    method UnlinkAt(prev: int, c: nat, ghost i: nat)
      requires Valid() && i < |items| && c == items[i] && prev == Nth(items, i - 1)
      modifies this
      ensures Valid() && items == Minus(old(items), c) && |next| == old(|next|)
    {
      assert next[items[i]] == Nth(items, i + 1) && Last(items) >= 0;
      hide Chain, Minus, NoDup, Last;
      MinusFacts(items, c);
      ghost var nx, h := next, head;
      if prev < 0 {
        head := next[c];
      } else {
        next := next[prev := next[c]];
      }
      if tail == c { tail := prev; }
      next := next[c := -1];
      ChainWithout(nx, h, items, i, next, head);
      items := Minus(items, c);
    }

    /** Unlink `target` wherever it is; nothing happens if it is not queued. */
    method Remove(target: nat)
      requires Valid()
      modifies this
      ensures Valid() && items == Minus(old(items), target) && |next| == old(|next|)
    {
      hide Minus, NoDup;
      var prev, c := -1, head;
      ghost var i := 0;
      while c >= 0
        invariant unchanged(this)
        invariant 0 <= i <= |items| && c == Nth(items, i) && prev == Nth(items, i - 1) && target !in items[..i]
        decreases |items| - i
      {
        if c == target {
          UnlinkAt(prev, c, i);
          return;
        }
        assert next[items[i]] == Nth(items, i + 1);
        prev, c := c, next[c];
        i := i + 1;
      }
      assert items[..i] == items;
      MinusAbsent(items, target);
    }
  }

  /** A list threads are pushed to the front of: the zombie list and the list of all threads. */
  class ThreadList {
    var next: seq<int>
    var head: int
    ghost var items: seq<nat>

    ghost predicate Valid()
      reads this
    {
      Chain(next, head, items) && NoDup(items)
    }

    constructor (threads: nat)
      ensures Valid() && items == [] && |next| == threads
    {
      next, head, items := seq(threads, _ => -1), -1, [];
    }

    method Extend()
      requires Valid()
      modifies this
      ensures Valid() && items == old(items) && |next| == old(|next|) + 1
    {
      next := next + [-1];
    }

    method Push(t: nat)
      requires Valid() && t < |next| && t !in items
      modifies this
      ensures Valid() && items == [t] + old(items) && |next| == old(|next|)
    {
      ChainPush(next, head, items, t);
      next := next[t := head];
      head := t;
      items := [t] + items;
    }

    /** Drop the first element; its own link is left as it is. */
    method DropFirst()
      requires Valid() && items != []
      modifies this
      ensures Valid() && items == old(items)[1..] && |next| == old(|next|)
    {
      ChainTail(next, head, items, next[head]);
      NoDupTail(items);
      assert next[head := next[head]] == next;
      head := next[head];
      items := items[1..];
    }

    method UnlinkAt(prev: int, c: nat, ghost i: nat)
      requires Valid() && i < |items| && c == items[i] && prev == Nth(items, i - 1)
      modifies this
      ensures Valid() && items == Minus(old(items), c) && |next| == old(|next|)
    {
      assert next[items[i]] == Nth(items, i + 1);
      hide Chain, Minus, NoDup, Last;
      MinusFacts(items, c);
      ghost var nx, h := next, head;
      if prev < 0 {
        head := next[c];
      } else {
        next := next[prev := next[c]];
      }
      next := next[c := -1];
      ChainWithout(nx, h, items, i, next, head);
      items := Minus(items, c);
    }

    method Remove(target: nat)
      requires Valid()
      modifies this
      ensures Valid() && items == Minus(old(items), target) && |next| == old(|next|)
    {
      hide Minus, NoDup;
      var prev, c := -1, head;
      ghost var i := 0;
      while c >= 0
        invariant unchanged(this)
        invariant 0 <= i <= |items| && c == Nth(items, i) && prev == Nth(items, i - 1) && target !in items[..i]
        decreases |items| - i
      {
        if c == target {
          UnlinkAt(prev, c, i);
          return;
        }
        assert next[items[i]] == Nth(items, i + 1);
        prev, c := c, next[c];
        i := i + 1;
      }
      assert items[..i] == items;
      MinusAbsent(items, target);
    }
  }

  /** Heads and tails of linked lists are nodes. */
  lemma LinkedBounds(ls: seq<Link>, heads: seq<int>, lists: seq<seq<nat>>, o: nat)
    requires LinksOk(ls, heads, lists) && o < |lists|
    ensures |heads| == |lists| && heads[o] == Nth(lists[o], 0)
    ensures lists[o] != [] ==> 0 <= heads[o] < |ls| && 0 <= Last(lists[o]) < |ls|
    ensures forall e :: e in lists[o] ==> OnList(lists, e)
  {
  }

  /** The neighbours of a node, and the list without it. */
  lemma LinkedNode(ls: seq<Link>, heads: seq<int>, lists: seq<seq<nat>>, o: nat, e: nat) returns (i: nat)
    requires LinksOk(ls, heads, lists) && o < |lists| && e in lists[o]
    ensures e < |ls| && |heads| == |lists| && i < |lists[o]| && lists[o][i] == e
    ensures ls[e] == Link(Nth(lists[o], i - 1), Nth(lists[o], i + 1))
    ensures i > 0 ==> lists[o][i - 1] < |ls| && lists[o][i - 1] != e
    ensures i + 1 < |lists[o]| ==> lists[o][i + 1] < |ls| && lists[o][i + 1] != e
    ensures 0 < i < |lists[o]| - 1 ==> lists[o][i - 1] != lists[o][i + 1]
    ensures IsWithout(Minus(lists[o], e), lists[o], i)
    ensures Last(Minus(lists[o], e)) == if i + 1 < |lists[o]| then Last(lists[o]) else Nth(lists[o], i - 1)
  {
    i :| 0 <= i < |lists[o]| && lists[o][i] == e;
    assert Linked(ls, lists[o]) && NoDup(lists[o]);
    MinusAt(lists[o], i);
  }

  /** The entries waiting for each resource, oldest first: `prev`/`next`, head and tail per queue. */
  class WaitQueues {
    var links: seq<Link>
    var heads: seq<int>
    var tails: seq<int>
    ghost var lists: seq<seq<nat>>

    ghost predicate Valid()
      reads this
    {
      LinksOk(links, heads, lists) && |tails| == |lists| && forall q :: 0 <= q < |lists| ==> tails[q] == Last(lists[q])
    }

    constructor (queues: nat)
      ensures Valid() && lists == seq(queues, _ => []) && links == []
    {
      links, heads, tails, lists := [], seq(queues, _ => -1), seq(queues, _ => -1), seq(queues, _ => []);
    }

    method Extend()
      requires Valid()
      modifies this
      ensures Valid() && lists == old(lists) && |links| == old(|links|) + 1
    {
      links := links + [Link(-1, -1)];
    }

    /** Link entry `e` behind the last entry of queue `q`. */
    method Append(q: nat, e: nat)
      requires Valid() && q < |lists| && e < |links| && !OnList(lists, e)
      modifies this
      ensures Valid() && lists == old(lists)[q := old(lists[q]) + [e]] && |links| == old(|links|)
    {
      hide LinksOk, OnList;
      assert lists[q] != [] ==> Last(lists[q]) in lists[q];
      LinkedBounds(links, heads, lists, q);
      ghost var ls, hs := links, heads;
      links := links[e := Link(tails[q], -1)];
      if tails[q] >= 0 {
        links := links[tails[q] := links[tails[q]].(next := e)];
      } else {
        heads := heads[q := e];
      }
      AppendLinks(ls, links, hs, lists, q, e);
      tails := tails[q := e];
      lists := lists[q := lists[q] + [e]];
    }

    method Unlink(q: nat, e: nat)
      requires Valid() && q < |lists| && e in lists[q]
      modifies this
      ensures Valid() && lists == old(lists)[q := Minus(old(lists[q]), e)] && |links| == old(|links|)
    {
      hide LinksOk, Minus, Last, IsWithout;
      ghost var i := LinkedNode(links, heads, lists, q, e);
      ghost var ls, hs := links, heads;
      var p, n := links[e].prev, links[e].next;
      if p >= 0 {
        links := links[p := links[p].(next := n)];
      } else {
        heads := heads[q := n];
      }
      if n >= 0 {
        links := links[n := links[n].(prev := p)];
      } else {
        tails := tails[q := p];
      }
      links := links[e := Link(-1, -1)];
      RemoveLinks(ls, links, hs, lists, Minus(lists[q], e), q, i);
      lists := lists[q := Minus(lists[q], e)];
    }
  }

  /** The registrations of each thread, newest first: `task_prev`/`task_next` and one head per thread. */
  class Registrations {
    var links: seq<Link>
    var heads: seq<int>
    ghost var lists: seq<seq<nat>>

    ghost predicate Valid()
      reads this
    {
      LinksOk(links, heads, lists)
    }

    constructor (threads: nat)
      ensures Valid() && lists == seq(threads, _ => []) && links == []
    {
      links, heads, lists := [], seq(threads, _ => -1), seq(threads, _ => []);
    }

    method Extend()
      requires Valid()
      modifies this
      ensures Valid() && lists == old(lists) && |links| == old(|links|) + 1
    {
      links := links + [Link(-1, -1)];
    }

    method ExtendThreads()
      requires Valid()
      modifies this
      ensures Valid() && lists == old(lists) + [[]] && |links| == old(|links|)
    {
      heads, lists := heads + [-1], lists + [[]];
    }

    method Push(t: nat, e: nat)
      requires Valid() && t < |lists| && e < |links| && !OnList(lists, e)
      modifies this
      ensures Valid() && lists == old(lists)[t := [e] + old(lists[t])] && |links| == old(|links|)
    {
      hide LinksOk, OnList;
      LinkedBounds(links, heads, lists, t);
      ghost var ls, hs := links, heads;
      var first := heads[t];
      links := links[e := Link(-1, first)];
      if first >= 0 {
        links := links[first := links[first].(prev := e)];
      }
      heads := heads[t := e];
      PushLinks(ls, links, hs, lists, t, e);
      lists := lists[t := [e] + lists[t]];
    }

    method Unlink(t: nat, e: nat)
      requires Valid() && t < |lists| && e in lists[t]
      modifies this
      ensures Valid() && lists == old(lists)[t := Minus(old(lists[t]), e)] && |links| == old(|links|)
    {
      hide LinksOk, Minus, Last, IsWithout;
      ghost var i := LinkedNode(links, heads, lists, t, e);
      ghost var ls, hs := links, heads;
      var p, n := links[e].prev, links[e].next;
      if p >= 0 {
        links := links[p := links[p].(next := n)];
      } else {
        heads := heads[t := n];
      }
      if n >= 0 {
        links := links[n := links[n].(prev := p)];
      }
      links := links[e := Link(-1, -1)];
      RemoveLinks(ls, links, hs, lists, Minus(lists[t], e), t, i);
      lists := lists[t := Minus(lists[t], e)];
    }
  }
}
