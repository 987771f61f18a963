/**
 The intrusive circular list and queue of src/core/qp_memory_core.h. A node is a field of the entity
 it links; `owner` is that entity, which the source finds by the node's offset.
 */
module Lists {
  import opened Common

  ghost predicate Distinct<T>(s: seq<T>) { forall i, j :: 0 <= i < j < |s| ==> s[i] != s[j] }

  lemma DistinctWithout<T>(s: seq<T>, i: nat)
    requires Distinct(s) && i < |s|
    ensures Distinct(s[..i] + s[i + 1..]) && s[i] !in s[..i] + s[i + 1..]
  {
  }

  lemma DistinctJoined<T>(a: seq<T>, b: seq<T>)
    requires Distinct(a) && Distinct(b) && forall x <- a :: x !in b
    ensures Distinct(a + b)
  {
    var c := a + b;
    forall i, j | 0 <= i < j < |c| ensures c[i] != c[j] {
      if i < |a| <= j {
        assert c[i] == a[i] && c[j] == b[j - |a|] && b[j - |a|] in b;
      }
    }
  }

  lemma DistinctPlus<T>(x: T, s: seq<T>, y: T)
    requires Distinct([x] + s) && y !in [x] + s
    ensures Distinct([x] + ([y] + s)) && Distinct([x] + (s + [y]))
  {
    var r, a := [x] + s, [x] + ([y] + s);
    forall i, j | 0 <= i < j < |a| ensures a[i] != a[j] {
      assert x in r && (1 < j ==> a[j] == r[j - 1] && r[j - 1] in r) && (1 < i ==> a[i] == r[i - 1]);
      assert i == 0 ==> a[i] == r[0];
    }
    DistinctJoined(r, [y]);
    assert r + [y] == [x] + (s + [y]);
  }

  /** Cutting a queue behind its head. */
  lemma CutBehind<T>(x: T, s: seq<T>, i: nat)
    requires i <= |s|
    ensures [x] + s[..i] == ([x] + s)[..i + 1] && s[i..] == ([x] + s)[i + 1..]
  {
  }

  lemma DistinctCut<T>(s: seq<T>, i: nat)
    requires Distinct(s) && i <= |s|
    ensures Distinct(s[..i]) && Distinct(s[i..]) && forall x <- s[..i] :: x !in s[i..]
  {
  }

  // ---------- list (or stack) ----------

  class Link<T> {
    var next: Link?<T>
    var owner: Option<T>

    constructor ()
      ensures next == null && owner == None
    {
      next, owner := null, None;
    }
  }

  /** The node after position `i` of the list `s`, which closes at `head`. */
  function Following<T>(head: Link<T>, s: seq<Link<T>>, i: nat): (r: Link<T>)
    requires i < |s|
  {
    if i + 1 < |s| then s[i + 1] else head
  }

  /** From `head` through `s` and back. */
  ghost predicate IsList<T>(head: Link<T>, s: seq<Link<T>>)
    reads head, s
  {
    && head !in s && Distinct(s)
    && head.next == (if s == [] then head else s[0])
    && forall i :: 0 <= i < |s| ==> s[i].next == Following(head, s, i)
  }

  method ListInit<T>(list: Link<T>)
    modifies list`next
    ensures IsList(list, [])
  {
    list.next := list;
  }

  predicate ListIsEmpty<T>(list: Link<T>)
    reads list
  {
    list == list.next
  }

  function ListFirst<T>(list: Link<T>): (r: Link?<T>)
    reads list
  {
    if ListIsEmpty(list) then null else list.next
  }

  method ListPush<T>(list: Link<T>, node: Link<T>, ghost s: seq<Link<T>>)
    requires IsList(list, s) && node !in s && node != list
    modifies list`next, node`next
    ensures IsList(list, [node] + s)
  {
    node.next := list.next;
    list.next := node;
    assert forall i :: 0 < i < |[node] + s| ==> ([node] + s)[i] == s[i - 1];
  }

  /** Popping an empty list leaves it empty. */
  method ListPop<T>(list: Link<T>, ghost s: seq<Link<T>>)
    requires IsList(list, s)
    modifies list`next
    ensures IsList(list, if s == [] then [] else s[1..])
  {
    assert s != [] ==> s[0].next == Following(list, s, 0);
    list.next := list.next.next;
  }

  /** The first node is the first of the list, and an empty list has none. */
  lemma FirstIsFirst<T>(head: Link<T>, s: seq<Link<T>>)
    requires IsList(head, s)
    ensures ListFirst(head) == if s == [] then null else s[0]
    ensures ListIsEmpty(head) <==> s == []
  {
    assert s != [] ==> s[0] in s;
  }

  /** Only a node outside every list closes on itself. */
  lemma MembersDoNotClose<T>(head: Link<T>, s: seq<Link<T>>, node: Link<T>)
    requires IsList(head, s) && node in s
    ensures !ListIsEmpty(node)
  {
    var i :| 0 <= i < |s| && s[i] == node;
    if i + 1 < |s| {
      assert s[i + 1] != s[i];
    }
  }

  // ---------- queue ----------

  class Ring<T> {
    var prev: Ring?<T>
    var next: Ring?<T>
    var owner: Option<T>

    constructor ()
      ensures prev == null && next == null && owner == None
    {
      prev, next, owner := null, null, None;
    }
  }

  function Succ(i: nat, n: nat): (r: nat)
    requires i < n
  {
    if i + 1 == n then 0 else i + 1
  }

  /** The node at `i` and the one after it are linked both ways. */
  ghost predicate Joined<T>(r: seq<Ring<T>>, i: nat)
    requires i < |r|
    reads r
  {
    r[i].next == r[Succ(i, |r|)] && r[Succ(i, |r|)].prev == r[i]
  }

  /** The nodes of `r` follow each other in a ring, and the links back are the inverse of the links on. */
  ghost predicate IsRing<T>(r: seq<Ring<T>>)
    reads r
  {
    Distinct(r) && forall i {:trigger Joined(r, i)} :: 0 <= i < |r| ==> Joined(r, i)
  }

  /** A queue: its head and the nodes after it. */
  ghost predicate IsQueue<T>(head: Ring<T>, s: seq<Ring<T>>)
    reads [head] + s
  {
    IsRing([head] + s)
  }

  /** Each node of a ring is between its neighbours. */
  lemma Neighbours<T>(r: seq<Ring<T>>, i: nat)
    requires IsRing(r) && i < |r|
    ensures r[i].next == r[Succ(i, |r|)] && r[i].prev == r[if i == 0 then |r| - 1 else i - 1]
  {
    var p := if i == 0 then |r| - 1 else i - 1;
    assert Succ(p, |r|) == i;
    assert Joined(r, p) && Joined(r, i);
  }

  method QueueInit<T>(queue: Ring<T>)
    modifies queue`prev, queue`next
    ensures IsQueue(queue, [])
  {
    queue.prev := queue;
    queue.next := queue;
  }

  predicate QueueIsEmpty<T>(queue: Ring<T>)
    reads queue
  {
    queue == queue.prev
  }

  function QueueFirst<T>(queue: Ring<T>): (r: Ring?<T>)
    reads queue
  {
    if QueueIsEmpty(queue) then null else queue.next
  }

  function QueueLast<T>(queue: Ring<T>): (r: Ring?<T>)
    reads queue
  {
    if QueueIsEmpty(queue) then null else queue.prev
  }

  lemma QueueEnds<T>(queue: Ring<T>, s: seq<Ring<T>>)
    requires IsQueue(queue, s)
    ensures QueueIsEmpty(queue) <==> s == []
    ensures QueueFirst(queue) == if s == [] then null else s[0]
    ensures QueueLast(queue) == if s == [] then null else s[|s| - 1]
  {
    var r := [queue] + s;
    Neighbours(r, 0);
    assert s != [] ==> s[|s| - 1] == r[|r| - 1];
  }

  method QueueInsertAfterHead<T>(queue: Ring<T>, node: Ring<T>, ghost s: seq<Ring<T>>)
    requires IsQueue(queue, s) && node !in [queue] + s
    modifies queue`next, queue`prev, node`prev, node`next, s`prev
    ensures IsQueue(queue, [node] + s)
  {
    ghost var r, t := [queue] + s, [queue] + ([node] + s);
    DistinctPlus(queue, s, node);
    Neighbours(r, 0);
    node.next := queue.next;
    node.next.prev := node;
    node.prev := queue;
    queue.next := node;
    forall j | 0 <= j < |t| ensures Joined(t, j) {
      if 1 < j {
        assert t[j] == r[j - 1] && old(Joined(r, j - 1));
      } else {
        assert j == 1 && s != [] ==> t[2] == r[1];
      }
    }
  }

  method QueueInsertAfterTail<T>(queue: Ring<T>, node: Ring<T>, ghost s: seq<Ring<T>>)
    requires IsQueue(queue, s) && node !in [queue] + s
    modifies queue`next, queue`prev, node`prev, node`next, s`next
    ensures IsQueue(queue, s + [node])
  {
    ghost var r, t := [queue] + s, [queue] + (s + [node]);
    DistinctPlus(queue, s, node);
    Neighbours(r, 0);
    node.prev := queue.prev;
    node.prev.next := node;
    node.next := queue;
    queue.prev := node;
    forall j | 0 <= j < |t| ensures Joined(t, j) {
      if j < |r| - 1 {
        assert t[j] == r[j] && t[j + 1] == r[j + 1] && old(Joined(r, j));
      } else {
        assert j == |r| - 1 ==> t[j] == r[j];
      }
    }
  }

  /** Unlink the node at position `i`; its own links are left as they are. */
  method QueueRemove<T>(node: Ring<T>, ghost queue: Ring<T>, ghost s: seq<Ring<T>>, ghost i: nat)
    requires IsQueue(queue, s) && i < |s| && s[i] == node
    modifies queue`next, queue`prev, s`next, s`prev
    ensures IsQueue(queue, s[..i] + s[i + 1..])
  {
    ghost var r, t := [queue] + s, [queue] + (s[..i] + s[i + 1..]);
    ghost var n := |r|;
    Neighbours(r, i + 1);
    DistinctWithout(r, i + 1);
    assert t == r[..i + 1] + r[i + 2..];
    node.next.prev := node.prev;
    node.prev.next := node.next;
    forall j | 0 <= j < |t| ensures Joined(t, j) {
      var k := if j <= i then j else j + 1;
      assert t[j] == r[k] && old(Joined(r, k));
      assert j != i ==> t[Succ(j, |t|)] == r[Succ(k, n)];
    }
  }

  /** Cut the queue before `node`, the node at position `i`: the rest moves to `newq`. */
  method QueueSplit<T>(queue: Ring<T>, node: Ring<T>, newq: Ring<T>, ghost s: seq<Ring<T>>, ghost i: nat)
    requires IsQueue(queue, s) && i < |s| && s[i] == node && newq !in [queue] + s
    modifies queue`prev, newq`next, newq`prev, queue`next, s`next, s`prev
    ensures IsQueue(queue, s[..i]) && IsQueue(newq, s[i..])
  {
    hide Distinct, Joined;
    ghost var r := [queue] + s;
    SplitLinks(queue, node, newq, r, i);
    FrontIsRing(r, i + 1);
    BackIsRing(r, i + 1, newq);
    CutBehind(queue, s, i);
  }

  /** The assignments of the split. */
  method SplitLinks<T>(queue: Ring<T>, node: Ring<T>, newq: Ring<T>, ghost r: seq<Ring<T>>, ghost i: nat)
    requires IsRing(r) && i + 1 < |r| && newq !in r && r[0] == queue && r[i + 1] == node
    modifies queue`prev, newq`next, newq`prev, r`next, node`prev
    ensures newq.prev == r[|r| - 1] && r[|r| - 1].next == newq && newq.next == node && node.prev == newq
    ensures queue.prev == r[i] && r[i].next == queue
    ensures forall j {:trigger Joined(r, j)} :: 0 <= j < |r| - 1 && j != i ==> Joined(r, j)
  {
    Neighbours(r, 0);
    Neighbours(r, i + 1);
    newq.prev := queue.prev;
    newq.prev.next := newq;
    newq.next := node;
    queue.prev := node.prev;
    queue.prev.next := queue;
    node.prev := newq;
    assert forall j {:trigger Joined(r, j)} :: 0 <= j < |r| - 1 && j != i ==> old(Joined(r, j)) ==> Joined(r, j);
  }

  /** The first `i` nodes of a ring, closed. */
  lemma FrontIsRing<T>(r: seq<Ring<T>>, i: nat)
    requires Distinct(r) && 0 < i < |r| && r[i - 1].next == r[0] && r[0].prev == r[i - 1]
    requires forall j {:trigger Joined(r, j)} :: 0 <= j < i - 1 ==> Joined(r, j)
    ensures IsRing(r[..i])
  {
    var a := r[..i];
    forall j | 0 <= j < i ensures Joined(a, j) {
      assert j < i - 1 ==> Joined(r, j);
    }
  }

  /** The nodes of a ring from `i` on, closed by another node. */
  lemma BackIsRing<T>(r: seq<Ring<T>>, i: nat, head: Ring<T>)
    requires Distinct(r) && 0 < i < |r| && head !in r
    requires head.next == r[i] && r[i].prev == head && head.prev == r[|r| - 1] && r[|r| - 1].next == head
    requires forall j {:trigger Joined(r, j)} :: i <= j < |r| - 1 ==> Joined(r, j)
    ensures IsRing([head] + r[i..])
  {
    var b := [head] + r[i..];
    forall j | 0 <= j < |b| ensures Joined(b, j) {
      assert 0 < j < |b| - 1 ==> Joined(r, i + j - 1);
    }
  }

  /** Append the nodes of `newq`, which is not a queue of its own any more. */
  method QueueMerge<T>(queue: Ring<T>, newq: Ring<T>, ghost s: seq<Ring<T>>, ghost t: seq<Ring<T>>)
    requires IsQueue(queue, s) && IsQueue(newq, t) && forall x <- [queue] + s :: x !in [newq] + t
    modifies queue`next, queue`prev, newq`next, newq`prev, s`next, t`next, t`prev
    ensures IsQueue(queue, s + t)
  {
    hide Joined;
    ghost var a, b := [queue] + s, [newq] + t;
    DistinctCut(b, 1);
    assert b[1..] == t && [queue] + (s + t) == a + t;
    DistinctJoined(a, t);
    MergeLinks(queue, newq, a, b);
    RingsJoin(a, b);
  }

  /** The assignments of the merge. */
  method MergeLinks<T>(queue: Ring<T>, newq: Ring<T>, ghost a: seq<Ring<T>>, ghost b: seq<Ring<T>>)
    requires IsRing(a) && IsRing(b) && a != [] && b != [] && a[0] == queue && b[0] == newq && forall x <- a :: x !in b
    modifies queue`prev, a`next, b`next, b`prev
    ensures var m, k := |a|, |b|;
            if k == 1 then a[m - 1].next == a[0] && a[0].prev == a[m - 1]
            else a[m - 1].next == b[1] && b[1].prev == a[m - 1] && b[k - 1].next == a[0] && a[0].prev == b[k - 1]
    ensures forall j {:trigger Joined(a, j)} :: 0 <= j < |a| - 1 ==> Joined(a, j)
    ensures forall j {:trigger Joined(b, j)} :: 1 <= j < |b| - 1 ==> Joined(b, j)
  {
    Neighbours(a, 0);
    Neighbours(b, 0);
    assert a[|a| - 1] in a && queue in a && b[|b| - 1] in b && b[Succ(0, |b|)] in b;
    queue.prev.next := newq.next;
    newq.next.prev := queue.prev;
    queue.prev := newq.prev;
    queue.prev.next := queue;
    assert forall j {:trigger Joined(a, j)} ::
        0 <= j < |a| - 1 ==> a[j] in a && a[j + 1] in a && old(Joined(a, j)) ==> Joined(a, j);
    assert forall j {:trigger Joined(b, j)} ::
        1 <= j < |b| - 1 ==> b[j] in b && b[j + 1] in b && old(Joined(b, j)) ==> Joined(b, j);
  }

  /** The nodes of one ring followed by those of another, but for its head. */
  lemma RingsJoin<T>(a: seq<Ring<T>>, b: seq<Ring<T>>)
    requires a != [] && b != [] && Distinct(a + b[1..])
    requires var m, k := |a|, |b|;
             if k == 1 then a[m - 1].next == a[0] && a[0].prev == a[m - 1]
             else a[m - 1].next == b[1] && b[1].prev == a[m - 1] && b[k - 1].next == a[0] && a[0].prev == b[k - 1]
    requires forall j {:trigger Joined(a, j)} :: 0 <= j < |a| - 1 ==> Joined(a, j)
    requires forall j {:trigger Joined(b, j)} :: 1 <= j < |b| - 1 ==> Joined(b, j)
    ensures IsRing(a + b[1..])
  {
    var r, m, k := a + b[1..], |a|, |b|;
    forall j | 0 <= j < |r| ensures Joined(r, j) {
      if j < m - 1 {
        assert Joined(a, j);
      } else if m - 1 < j < |r| - 1 {
        assert r[j] == b[j - m + 1] && r[j + 1] == b[j - m + 2] && Joined(b, j - m + 1);
      }
    }
  }

  /** Merging what was split off restores the queue, link by link. */
  method QueueSplitAndMerge<T>(queue: Ring<T>, node: Ring<T>, newq: Ring<T>, ghost s: seq<Ring<T>>, ghost i: nat)
    requires IsQueue(queue, s) && i < |s| && s[i] == node && newq !in [queue] + s
    modifies queue`next, queue`prev, newq`next, newq`prev, s`next, s`prev
    ensures IsQueue(queue, s)
    ensures forall x <- [queue] + s :: x.next == old(x.next) && x.prev == old(x.prev)
  {
    ghost var r := [queue] + s;
    DistinctCut(r, i + 1);
    CutBehind(queue, s, i);
    QueueSplit(queue, node, newq, s, i);
    QueueMerge(queue, newq, s[..i], s[i..]);
    assert s[..i] + s[i..] == s;
    forall k | 0 <= k < |r| ensures r[k].next == old(r[k].next) && r[k].prev == old(r[k].prev) {
      var p := if k == 0 then |r| - 1 else k - 1;
      assert Succ(p, |r|) == k;
      assert old(Joined(r, p) && Joined(r, k)) && Joined(r, p) && Joined(r, k);
    }
  }
}
