/** Doubly linked thread lists with sentinel nodes (kern/thread/threadlist.c). */
module ThreadLists {

  class Thread {
    const node: Node

    /** `threadlistnode_init` for the node inside a new thread. */
    constructor ()
      ensures fresh(node) && node.self == this && node.Loose()
    {
      node := new Node();
      new;
      node.self := this;
    }
  }

  class Node {
    var next: Node?
    var prev: Node?
    var self: Thread?

    constructor ()
      ensures next == null && prev == null && self == null
    {
      next, prev, self := null, null, null;
    }

    /** Not on any list. */
    ghost predicate Loose()
      reads this
    {
      next == null && prev == null
    }
  }

  /** The nodes are linked both ways, in order. */
  ghost predicate Linked(ns: seq<Node>)
    reads ns
  {
    && (forall i {:trigger ns[i].next} :: 0 <= i < |ns| ==> ns[i].next == if i + 1 < |ns| then ns[i + 1] else null)
    && (forall i {:trigger ns[i].prev} :: 0 <= i < |ns| ==> ns[i].prev == if i > 0 then ns[i - 1] else null)
  }

  ghost predicate Distinct<T>(s: seq<T>) {
    forall i, j :: 0 <= i < j < |s| ==> s[i] != s[j]
  }

  /** The chain with a node put in after position `k`. */
  ghost function Spliced(c: seq<Node>, k: nat, n: Node): (r: seq<Node>)
    requires k < |c|
    ensures |r| == |c| + 1 && forall i :: 0 <= i < |r| ==> r[i] == if i <= k then c[i] else if i == k + 1 then n else c[i - 1]
  {
    c[..k + 1] + [n] + c[k + 1..]
  }

  lemma DistinctSpliced(c: seq<Node>, k: nat, n: Node)
    requires Distinct(c) && k < |c| && n !in c
    ensures Distinct(Spliced(c, k, n))
  {
  }

  /** The four assignments of an insertion between neighbours. */
  method Link(before: Node, addee: Node, after: Node, ghost c: seq<Node>, ghost k: nat)
    requires Linked(c) && Distinct(c) && k + 1 < |c| && before == c[k] && after == c[k + 1] && addee !in c
    modifies before`next, after`prev, addee`next, addee`prev
    ensures Linked(Spliced(c, k, addee))
  {
    addee.prev := before;
    addee.next := after;
    before.next := addee;
    after.prev := addee;
  }

  class ThreadList {
    const head: Node
    const tail: Node
    var count: nat
    ghost var threads: seq<Thread>
    ghost var chain: seq<Node>

    /** The chain is the nodes of the listed threads between the two sentinels. */
    ghost predicate Valid()
      reads this, chain
    {
      && count == |threads| && |chain| == |threads| + 2
      && chain[0] == head && chain[|threads| + 1] == tail
      && Linked(chain) && Distinct(chain)
      && chain[0].self == null && chain[|threads| + 1].self == null
      && (forall i {:trigger threads[i]} :: 0 <= i < |threads| ==> threads[i].node == chain[i + 1] && chain[i + 1].self == threads[i])
    }

    /** `threadlist_init`. */
    constructor ()
      ensures Valid() && threads == [] && fresh(chain)
    {
      head := new Node();
      tail := new Node();
      count, threads := 0, [];
      chain := [head, tail];
      new;
      head.next := tail;
      tail.prev := head;
    }

    /** `threadlist_isempty`. */
    method IsEmpty() returns (empty: bool)
      requires Valid()
      ensures empty <==> threads == []
    {
      empty := count == 0;
    }

    /** A thread that can join the list: its node is on no list. */
    ghost predicate CanJoin(t: Thread)
      reads this, t.node
    {
      t.node.Loose() && t.node.self == t && t.node !in chain
    }

    /** `threadlist_insertafternode`, with the count; the node is at position `k` of the chain. */
    method InsertAfterNode(onlist: Node, t: Thread, ghost k: nat)
      requires Valid() && CanJoin(t) && k <= |threads| && onlist == chain[k]
      modifies this`threads, this`chain, this`count, chain, t.node
      ensures Valid() && threads == old(threads)[..k] + [t] + old(threads)[k..]
    {
      ghost var c := chain;
      var addee := t.node;
      Link(onlist, addee, onlist.next, c, k);
      DistinctSpliced(c, k, addee);
      chain := Spliced(c, k, addee);
      threads := threads[..k] + [t] + threads[k..];
      count := count + 1;
    }

    /** `threadlist_insertbeforenode`, with the count. */
    method InsertBeforeNode(t: Thread, onlist: Node, ghost k: nat)
      requires Valid() && CanJoin(t) && k <= |threads| && onlist == chain[k + 1]
      modifies this`threads, this`chain, this`count, chain, t.node
      ensures Valid() && threads == old(threads)[..k] + [t] + old(threads)[k..]
    {
      ghost var c := chain;
      var addee := t.node;
      Link(onlist.prev, addee, onlist, c, k);
      DistinctSpliced(c, k, addee);
      chain := Spliced(c, k, addee);
      threads := threads[..k] + [t] + threads[k..];
      count := count + 1;
    }

    /** `threadlist_removenode`, with the count. */
    method RemoveNode(n: Node, ghost k: nat)
      requires Valid() && k < |threads| && n == threads[k].node
      modifies this`threads, this`chain, this`count, chain
      ensures Valid() && threads == old(threads)[..k] + old(threads)[k + 1..]
      ensures n.Loose() && n.self == old(threads)[k] && n !in chain
    {
      ghost var c := chain;
      assert c[k + 1] == n;
      n.prev.next := n.next;
      n.next.prev := n.prev;
      n.prev := null;
      n.next := null;
      chain := c[..k + 1] + c[k + 2..];
      threads := threads[..k] + threads[k + 1..];
      count := count - 1;
    }

    /** `threadlist_addhead`. */
    method AddHead(t: Thread)
      requires Valid() && CanJoin(t)
      modifies this`threads, this`chain, this`count, chain, t.node
      ensures Valid() && threads == [t] + old(threads)
    {
      InsertAfterNode(head, t, 0);
    }

    /** `threadlist_addtail`. */
    method AddTail(t: Thread)
      requires Valid() && CanJoin(t)
      modifies this`threads, this`chain, this`count, chain, t.node
      ensures Valid() && threads == old(threads) + [t]
    {
      InsertBeforeNode(t, tail, |threads|);
    }

    /** `threadlist_remhead`. */
    method RemHead() returns (t: Thread?)
      requires Valid()
      modifies this`threads, this`chain, this`count, chain
      ensures Valid()
      ensures old(threads) == [] ==> t == null && threads == [] && chain == old(chain)
      ensures old(threads) != [] ==> t == old(threads)[0] && threads == old(threads)[1..] && CanJoin(t)
    {
      var n := head.next;
      assert n == chain[1];
      if n.next == null {
        return null;
      }
      RemoveNode(n, 0);
      t := n.self;
    }

    /** `threadlist_remtail`. */
    method RemTail() returns (t: Thread?)
      requires Valid()
      modifies this`threads, this`chain, this`count, chain
      ensures Valid()
      ensures old(threads) == [] ==> t == null && threads == [] && chain == old(chain)
      ensures old(threads) != [] ==>
        t == old(threads)[|old(threads)| - 1] && threads == old(threads)[..|old(threads)| - 1] && CanJoin(t)
    {
      var n := tail.prev;
      assert n == chain[|threads|];
      if n.prev == null {
        return null;
      }
      RemoveNode(n, |threads| - 1);
      t := n.self;
    }

    /** `threadlist_insertafter`. */
    method InsertAfter(onlist: Thread, addee: Thread, ghost k: nat)
      requires Valid() && CanJoin(addee) && k < |threads| && threads[k] == onlist
      modifies this`threads, this`chain, this`count, chain, addee.node
      ensures Valid() && threads == old(threads)[..k + 1] + [addee] + old(threads)[k + 1..]
    {
      InsertAfterNode(onlist.node, addee, k + 1);
    }

    /** `threadlist_insertbefore`. */
    method InsertBefore(addee: Thread, onlist: Thread, ghost k: nat)
      requires Valid() && CanJoin(addee) && k < |threads| && threads[k] == onlist
      modifies this`threads, this`chain, this`count, chain, addee.node
      ensures Valid() && threads == old(threads)[..k] + [addee] + old(threads)[k..]
    {
      InsertBeforeNode(addee, onlist.node, k);
    }

    /** `threadlist_remove`. */
    method Remove(t: Thread, ghost k: nat)
      requires Valid() && k < |threads| && threads[k] == t
      modifies this`threads, this`chain, this`count, chain
      ensures Valid() && threads == old(threads)[..k] + old(threads)[k + 1..] && CanJoin(t)
    {
      RemoveNode(t.node, k);
    }
  }

  /** No thread is on a list twice, and a thread with a loose node is on none. */
  lemma OnceOnly(l: ThreadList, t: Thread)
    requires l.Valid()
    ensures Distinct(l.threads)
    ensures t in l.threads ==> !t.node.Loose()
  {
    forall i, j | 0 <= i < j < |l.threads| ensures l.threads[i] != l.threads[j] {
      assert l.chain[i + 1] != l.chain[j + 1];
    }
    if t in l.threads {
      var i :| 0 <= i < |l.threads| && l.threads[i] == t;
      assert l.chain[i + 1].next == l.chain[i + 2];
    }
  }

  /** Following the back pointers, every node leads to its own list's head, so two lists share no node but perhaps a tail. */
  lemma {:induction false} NodesDiffer(l: ThreadList, m: ThreadList, i: nat, j: nat)
    requires l.Valid() && m.Valid() && l.head != m.head
    requires i <= |l.threads| && j <= |m.threads|
    ensures l.chain[i] != m.chain[j]
    decreases i
  {
    assert l.chain[i].prev == if i > 0 then l.chain[i - 1] else null;
    assert m.chain[j].prev == if j > 0 then m.chain[j - 1] else null;
    if i > 0 && j > 0 {
      NodesDiffer(l, m, i - 1, j - 1);
    }
  }

  /** Two lists never share a thread. */
  lemma ListsDisjoint(l: ThreadList, m: ThreadList, t: Thread)
    requires l.Valid() && m.Valid() && l.head != m.head && t in l.threads
    ensures t !in m.threads
  {
    var i :| 0 <= i < |l.threads| && l.threads[i] == t;
    forall j | 0 <= j < |m.threads| ensures m.threads[j] != t {
      NodesDiffer(l, m, i + 1, j + 1);
    }
  }
}
