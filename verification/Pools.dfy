/**
 Fixed-size block pools of src/core/qp_pool_core.c. A block is handed out as itself: the source's
 pointer is its header's address plus the header's size. `malloc` may fail at any time.
 */
module Pools {
  import opened Common
  import opened Lists

  /** `struct qp_pool_elm_s` and the bytes after it. */
  class Block {
    const link: Link<Block>
    const index: nat
    var root: Pool?

    constructor (index: nat)
      ensures fresh(link) && link.owner == Some(this) && root == null && this.index == index
    {
      link := new Link();
      this.index := index;
      root := null;
      new;
      link.owner := Some(this);
    }
  }

  function Links(s: seq<Block>): (l: seq<Link<Block>>)
    ensures |l| == |s| && forall i :: 0 <= i < |s| ==> l[i] == s[i].link
  {
    seq(|s|, i requires 0 <= i < |s| => s[i].link)
  }

  /** The blocks and their links. */
  ghost function Objects(s: seq<Block>): (r: set<object>)
    ensures forall b <- s :: b in r && b.link in r
  {
    (set b: Block | b in s) + (set b: Block | b in s :: b.link)
  }

  class Pool {
    const esize: nat
    const nsize: nat
    const room: seq<Block>
    const free: Link<Block>
    var nfree: nat
    var isInited: bool
    var container: Elm?
    ghost var frees: seq<Block>
    /** The objects of this pool but itself. */
    ghost const repr: set<object>

    ghost predicate Holds() {
      && free in repr && (forall b <- room :: b in repr && b.link in repr)
      && forall o <- repr :: o is Block || o is Link<Block>
    }

    /** The blocks are this pool's, each with its own link. */
    ghost predicate RoomOk()
      reads repr
    {
      && Holds() && nsize == |room| && Distinct(room)
      && forall i :: 0 <= i < |room| ==>
           room[i].root == this && room[i].index == i && room[i].link.owner == Some(room[i]) && room[i].link != free
    }

    ghost predicate Valid()
      reads this, repr
    {
      && isInited && RoomOk()
      && Distinct(frees) && (forall b <- frees :: b in room) && nfree == |frees|
      && IsList(free, Links(frees))
    }

    constructor (esize: nat, room: seq<Block>)
      requires Distinct(room) && forall i :: 0 <= i < |room| ==> room[i].root == null && room[i].index == i
      requires forall i :: 0 <= i < |room| ==> room[i].link.owner == Some(room[i])
      ensures this.esize == esize && this.room == room && nsize == |room| && nfree == |room|
      ensures Filling(0) && container == null
      ensures fresh(free) && repr == {free} + Objects(room)
    {
      container := null;
      this.esize, this.nsize, this.room, nfree, isInited := esize, |room|, room, |room|, true;
      frees := [];
      free := new Link();
      repr := {free} + Objects(room);
      new;
      ListInit(free);
      assert Links([]) == [];
    }

    function Available(): (r: nat)
      reads this
    {
      nfree
    }

    function Used(): (r: int)
      reads this
    {
      nsize - nfree
    }

    /** A block's link is no other block's. */
    lemma OwnLink(ptr: Block, others: seq<Block>)
      requires RoomOk() && ptr in room && ptr !in others && forall b <- others :: b in room
      ensures ptr.link !in Links(others) && ptr.link != free
    {
      var j :| 0 <= j < |room| && room[j] == ptr;
      forall b <- others ensures b.link != ptr.link {
        var i :| 0 <= i < |room| && room[i] == b;
      }
    }

    /** `qp_pool_alloc` */
    method Alloc(size: nat) returns (ptr: Block?)
      requires Valid()
      modifies this`nfree, this`frees, repr
      ensures Valid()
      ensures if size <= esize && old(frees) != [] then ptr == old(frees)[0] && frees == old(frees)[1..]
              else ptr == null && frees == old(frees)
    {
      ptr := null;
      if size <= esize && Available() > 0 {
        FirstIsFirst(free, Links(frees));
        var node := ListFirst(free);
        if node == null {
          return;
        }
        ghost var rest := frees[1..];
        assert Links(frees)[1..] == Links(rest);
        OwnLink(frees[0], rest);
        ListPop(free, Links(frees));
        nfree := nfree - 1;
        frees := rest;
        node.next := null;
        ptr := node.owner.value;
      }
    }

    /** `qp_pool_free`: a block of another pool is refused. */
    method Free(ptr: Block) returns (ok: bool)
      requires Valid() && (ptr.root == this ==> ptr in room && ptr !in frees)
      modifies this`nfree, this`frees, repr
      ensures Valid() && (ok <==> ptr in room) && ok == (old(ptr.root) == this)
      ensures frees == if ok then [ptr] + old(frees) else old(frees)
    {
      if ptr.root != this {
        return false;
      }
      OwnLink(ptr, frees);
      LinksPrepended(ptr, frees);
      ListPush(free, ptr.link, Links(frees));
      nfree := nfree + 1;
      frees := [ptr] + frees;
      return true;
    }

    /** The first `i` blocks are on the free list. */
    ghost predicate Filling(i: nat)
      reads this, repr
    {
      && Holds() && isInited && nsize == nfree == |room| && i <= |room| && Distinct(room)
      && (forall j :: 0 <= j < |room| ==>
            && room[j].root == (if j < i then this else null) && room[j].index == j
            && room[j].link.owner == Some(room[j]) && room[j].link != free)
      && frees == Pushed(room, i) && (forall b <- frees :: b in room) && IsList(free, Links(frees))
    }

    lemma FilledIsValid()
      requires Filling(nsize)
      ensures Valid() && frees == Pushed(room, nsize)
    {
      AllFree(room);
    }

    /** One turn of the loop of `qp_pool_init`. */
    method AddBlock(i: nat)
      requires Filling(i) && i < |room|
      modifies this`frees, repr
      ensures Filling(i + 1)
    {
      assert Pushed(room, i + 1) == [room[i]] + frees;
      hide Pushed;
      NextLinkIsNew(room, i);
      LinksPrepended(room[i], frees);
      room[i].root := this;
      ListPush(free, room[i].link, Links(frees));
      frees := [room[i]] + frees;
    }

    /** The loop of `qp_pool_init`. */
    method Fill()
      requires Filling(0)
      modifies this`frees, repr
      ensures Valid() && frees == Pushed(room, nsize)
    {
      hide Filling, Valid, Pushed;
      for i := 0 to |room|
        invariant Filling(i)
      {
        AddBlock(i);
      }
      Filled();
      FilledIsValid();
    }

    lemma Filled()
      requires Filling(|room|)
      ensures Filling(nsize)
    {
    }

    /** `qp_pool_to_array`: the source leaves the index unchecked. */
    method ToArray(index: nat) returns (ptr: Block?)
      requires isInited ==> RoomOk() && index < nsize
      ensures if isInited then ptr != null && ptr in room && ptr.index == index else ptr == null
    {
      ptr := if isInited then room[index] else null;
    }

    /** `qp_pool_destroy`: refused while blocks are out, unless forced. */
    method Destroy(force: bool) returns (ok: bool)
      modifies this`isInited
      ensures ok <==> old(isInited) && (force || nfree == nsize)
      ensures isInited == (old(isInited) && !ok)
    {
      if !isInited || (!force && nfree != nsize) {
        return false;
      }
      isInited := false;
      return true;
    }
  }

  /** `malloc` of `count` blocks in a row. */
  method AllocRoom(count: nat) returns (room: seq<Block>)
    ensures |room| == count && Distinct(room) && fresh(Objects(room))
    ensures forall i :: 0 <= i < count ==>
              room[i].root == null && room[i].index == i && room[i].link.owner == Some(room[i])
  {
    room := [];
    for i := 0 to count
      invariant |room| == i && Distinct(room) && fresh(Objects(room))
      invariant forall j :: 0 <= j < i ==>
                  room[j].root == null && room[j].index == j && room[j].link.owner == Some(room[j])
    {
      var b := new Block(i);
      ObjectsAppend(room, b);
      room := room + [b];
    }
  }

  lemma ObjectsAppend(s: seq<Block>, b: Block)
    ensures Objects(s + [b]) == Objects(s) + {b, b.link}
  {
    assert forall x: Block :: x in s + [b] <==> x in s || x == b;
  }

  /** The free list once the first `i` blocks are pushed. */
  function Pushed(room: seq<Block>, i: nat): (frees: seq<Block>)
    requires i <= |room|
    ensures |frees| == i
  {
    if i == 0 then [] else [room[i - 1]] + Pushed(room, i - 1)
  }

  lemma {:induction false} PushedAt(room: seq<Block>, i: nat)
    requires i <= |room|
    ensures forall j :: 0 <= j < i ==> Pushed(room, i)[j] == room[i - 1 - j]
  {
    if 0 < i {
      PushedAt(room, i - 1);
    }
  }

  /** `qp_pool_init`: all blocks free, the last of the room first; null when `malloc` fails. */
  method PoolInit(esize: nat, count: nat) returns (pool: Pool?)
    ensures pool != null ==>
              && pool.Valid() && pool.esize == esize && pool.nsize == count
              && pool.frees == Pushed(pool.room, pool.nsize)
              && fresh(pool) && fresh(pool.repr) && pool.container == null
  {
    pool := null;
    if * {
      return;
    }
    var room := AllocRoom(count);
    var p := new Pool(esize, room);
    hide Pool.Filling, Pool.Valid, Distinct, IsList, Links, Pushed;
    p.Fill();
    pool := p;
  }

  lemma LinksPrepended(b: Block, s: seq<Block>)
    ensures Links([b] + s) == [b.link] + Links(s)
  {
  }

  lemma AllFree(room: seq<Block>)
    requires Distinct(room)
    ensures Distinct(Pushed(room, |room|)) && forall b <- Pushed(room, |room|) :: b in room
  {
    PushedAt(room, |room|);
  }

  lemma NextLinkIsNew(room: seq<Block>, i: nat)
    requires i < |room| && Distinct(room) && forall j :: 0 <= j < |room| ==> room[j].link.owner == Some(room[j])
    ensures room[i].link !in Links(Pushed(room, i))
  {
    PushedAt(room, i);
  }

  /** Where a block's bytes are in the room: after the headers and bytes of those before it, and its own header. */
  function BlockOffset(esize: nat, header: nat, index: nat): (r: nat) { index * (esize + header) + header }

  /** The bytes of two blocks, headers included, do not overlap, and all are in the room. */
  lemma BlocksDoNotOverlap(esize: nat, header: nat, count: nat, i: nat, j: nat)
    requires i < j < count
    ensures BlockOffset(esize, header, i) + esize + header <= BlockOffset(esize, header, j)
    ensures BlockOffset(esize, header, j) + esize <= count * (esize + header)
  {
    var bucket := esize + header;
    NextFits(i, j, bucket);
    NextFits(j, count, bucket);
  }

  lemma NextFits(a: nat, b: nat, size: nat)
    requires a < b
    ensures a * size + size <= b * size
  {
    assert b * size == a * size + size + (b - a - 1) * size;
  }

  // ---------- the manager ----------

  /** `struct qp_manager_elm_s`: a pool, in the queue of pools and perhaps in the list of available ones. */
  class Elm {
    const queue: Ring<Elm>
    const link: Link<Elm>
    const pool: Pool
    var manager: Manager?

    constructor (pool: Pool, manager: Manager)
      modifies pool`container
      ensures this.pool == pool && Linked(manager) && fresh(queue) && fresh(link)
      ensures old(pool.Valid()) ==> pool.Valid()
    {
      hide Distinct, IsList;
      queue := new Ring();
      link := new Link();
      this.pool := pool;
      this.manager := manager;
      new;
      queue.owner := Some(this);
      link.owner := Some(this);
      pool.container := this;
    }

    /** The owners recorded in the parts of an element. */
    ghost predicate Linked(m: Manager)
      reads this`manager, pool`container, queue`owner, link`owner
    {
      manager == m && pool.container == this && queue.owner == Some(this) && link.owner == Some(this)
    }
  }

  function Rings(s: seq<Elm>): (l: seq<Ring<Elm>>)
    ensures |l| == |s| && forall i :: 0 <= i < |s| ==> l[i] == s[i].queue
  {
    seq(|s|, i requires 0 <= i < |s| => s[i].queue)
  }

  function ElmLinks(s: seq<Elm>): (l: seq<Link<Elm>>)
    ensures |l| == |s| && forall i :: 0 <= i < |s| ==> l[i] == s[i].link
  {
    seq(|s|, i requires 0 <= i < |s| => s[i].link)
  }

  ghost function FreeCounts(elms: seq<Elm>): (c: seq<nat>)
    reads (set e: Elm | e in elms :: e.pool)`frees
    ensures |c| == |elms| && forall i :: 0 <= i < |c| ==> c[i] == |elms[i].pool.frees|
  {
    if elms == [] then [] else [|elms[0].pool.frees|] + FreeCounts(elms[1..])
  }

  function Sum(s: seq<nat>): (r: nat) {
    if s == [] then 0 else s[0] + Sum(s[1..])
  }

  lemma {:induction false} SumUpdated(s: seq<nat>, i: nat, v: nat)
    requires i < |s|
    ensures Sum(s[i := v]) == Sum(s) - s[i] + v
  {
    if i == 0 {
      assert s[0 := v][1..] == s[1..];
    } else {
      assert s[i := v][1..] == s[1..][i - 1 := v];
      SumUpdated(s[1..], i - 1, v);
    }
  }

  lemma {:induction false} SumWithout(s: seq<nat>, i: nat)
    requires i < |s|
    ensures Sum(s[..i] + s[i + 1..]) == Sum(s) - s[i]
  {
    if i == 0 {
      assert s[..0] + s[1..] == s[1..];
    } else {
      assert (s[..i] + s[i + 1..])[1..] == s[1..][..i - 1] + s[1..][i..];
      SumWithout(s[1..], i - 1);
    }
  }

  /** No two elements share anything: each object is part of one of them, and of one kind. */
  ghost predicate AtHome(elms: seq<Elm>, home: map<object, Elm>) {
    && Distinct(elms)
    && (forall e <- elms ::
          Home(home, e, e) && Home(home, e.queue, e) && Home(home, e.link, e) && Home(home, e.pool, e))
    && (forall e <- elms ::
          && e.queue !in e.pool.repr && e.link !in e.pool.repr && e.pool !in e.pool.repr && e !in e.pool.repr)
    && (forall e <- elms, o <- e.pool.repr :: Home(home, o, e))
  }

  ghost predicate Home(home: map<object, Elm>, o: object, e: Elm) { o in home && home[o] == e }

  /** `parts` are the objects of `e`. */
  ghost predicate Consists(e: Elm, parts: set<object>) {
    && e in parts && e.queue in parts && e.link in parts && e.pool in parts && e.pool.repr <= parts
    && e.queue !in e.pool.repr && e.link !in e.pool.repr && e.pool !in e.pool.repr && e !in e.pool.repr
  }

  ghost predicate ListedAtHome(elms: seq<Elm>, avail: seq<Elm>, home: map<object, Elm>) {
    (forall e <- avail :: e in elms) && RingsAtHome(elms, home) && forall x <- ElmLinks(avail) :: x in home
  }

  ghost predicate RingsAtHome(elms: seq<Elm>, home: map<object, Elm>) { forall x <- Rings(elms) :: x in home }

  lemma NewAtHome(elms: seq<Elm>, home: map<object, Elm>, e: Elm, parts: set<object>)
    requires AtHome(elms, home) && Consists(e, parts) && parts !! home.Keys
    ensures AtHome([e] + elms, WithHome(home, parts, e)) && e !in elms
  {
    hide WithHome;
    assert e !in home;
  }

  lemma NewListed(elms: seq<Elm>, home: map<object, Elm>, e: Elm, parts: set<object>)
    requires ListedAtHome(elms, [], home) && Consists(e, parts) && parts !! home.Keys
    ensures ListedAtHome([e] + elms, [e], WithHome(home, parts, e))
  {
    hide WithHome;
    var h := WithHome(home, parts, e);
    forall x <- Rings([e] + elms) ensures x in h {
      if x != e.queue {
        assert x in Rings(elms);
      }
    }
  }

  /** What is outside every element is in none of their pools. */
  lemma Outside(elms: seq<Elm>, home: map<object, Elm>, o: object)
    requires AtHome(elms, home) && o !in home
    ensures forall e <- elms :: o !in e.pool.repr && o != e.pool && o != e.link && o != e.queue && o != e
  {
  }

  /** Each element is its manager's, with a sound pool of the manager's size. */
  ghost predicate Sound(m: Manager, elms: seq<Elm>, home: map<object, Elm>)
    requires AtHome(elms, home)
    reads home.Keys
  {
    forall e <- elms :: e.Linked(m) && e.pool.Valid() && e.pool.nsize == m.ecount && e.pool.esize == m.esize
  }

  /** The available pools are exactly those with a free block; any other closes on itself. */
  ghost predicate Offered(head: Link<Elm>, elms: seq<Elm>, avail: seq<Elm>, home: map<object, Elm>)
    requires AtHome(elms, home) && ListedAtHome(elms, avail, home)
    reads home.Keys, head
  {
    && IsList(head, ElmLinks(avail)) && head.owner == None
    && (forall e <- elms :: if e in avail then e.pool.frees != [] else e.pool.frees == [] && ListIsEmpty(e.link))
  }

  ghost predicate Queued(head: Ring<Elm>, elms: seq<Elm>, home: map<object, Elm>)
    requires RingsAtHome(elms, home)
    reads home.Keys, head
  {
    IsQueue(head, Rings(elms)) && head.owner == None
  }

  /** The live blocks are those of the pools that are not free. */
  ghost predicate LiveIn(elms: seq<Elm>, live: set<Block>)
    reads (set e: Elm | e in elms :: e.pool)`frees
  {
    && (forall e <- elms, b <- e.pool.room :: b in live <==> b !in e.pool.frees)
    && (forall b <- live :: exists e <- elms :: b in e.pool.room)
  }

  /** The manager's counters. */
  ghost predicate Counted(elms: seq<Elm>, used: int, poolCount: nat, nfree: int, ecount: nat)
    reads (set e: Elm | e in elms :: e.pool)`frees
  {
    poolCount == |elms| && nfree == Sum(FreeCounts(elms)) && used + nfree == poolCount * ecount
  }

  lemma NewIsCounted(elms: seq<Elm>, used: nat, poolCount: nat, nfree: nat, ecount: nat, e: Elm)
    requires Counted(elms, used, poolCount, nfree, ecount) && |e.pool.frees| == ecount
    ensures Counted([e] + elms, used, poolCount + 1, nfree + ecount, ecount)
  {
    assert FreeCounts([e] + elms)[1..] == FreeCounts(elms);
    assert (poolCount + 1) * ecount == poolCount * ecount + ecount;
  }

  class Manager {
    const poolsQueue: Ring<Elm>
    const available: Link<Elm>
    const esize: nat
    const ecount: nat
    var poolCount: nat
    var nfree: nat
    var isInited: bool
    ghost var elms: seq<Elm>
    ghost var avail: seq<Elm>
    /** The blocks handed out and not yet returned. */
    ghost var live: set<Block>
    /** The element each object of this manager is part of. */
    ghost var home: map<object, Elm>

    ghost predicate Apart()
      reads this`elms, this`avail, this`home
    {
      && this !in home && poolsQueue !in home && available !in home
      && AtHome(elms, home) && ListedAtHome(elms, avail, home)
    }

    ghost predicate Valid()
      reads this, home.Keys, poolsQueue, available
    {
      && isInited && 0 < ecount && Apart() && Sound(this, elms, home) && Offered(available, elms, avail, home)
      && Queued(poolsQueue, elms, home) && LiveIn(elms, live)
      && Counted(elms, |live|, poolCount, nfree, ecount)
    }

    /** `qp_manager_init` */
    constructor (esize: nat, ecount: nat)
      ensures 0 < ecount ==> Valid()
      ensures isInited && poolCount == 0 && nfree == 0 && live == {} && elms == [] && home == map[]
      ensures this.esize == esize && this.ecount == ecount
    {
      this.esize, this.ecount := esize, ecount;
      poolCount, nfree, isInited := 0, 0, true;
      elms, avail, live, home := [], [], {}, map[];
      poolsQueue := new Ring();
      available := new Link();
      new;
      hide IsQueue, IsList;
      QueueInit(poolsQueue);
      ListInit(available);
      assert Rings([]) == [] && ElmLinks([]) == [];
    }

    function Used(): (r: int)
      reads this
    {
      poolCount * ecount - nfree
    }

    /** The blocks in use are the live ones. */
    lemma UsedIsLive()
      requires Valid()
      ensures Used() == |live|
    {
    }

    /** A new element's nodes are in no list yet. */
    lemma NodesAreNew(e: Elm)
      requires e !in elms && e.Linked(this) && (forall d <- elms :: d.Linked(this)) && poolsQueue.owner == None
      requires available.owner == None
      ensures e.queue !in [poolsQueue] + Rings(elms) && e.link != available
    {
      forall d <- elms ensures d.queue != e.queue {
        assert d.Linked(this);
      }
    }

    lemma RingsPrepended(e: Elm, s: seq<Elm>)
      ensures Rings([e] + s) == [e.queue] + Rings(s) && ElmLinks([e] + s) == [e.link] + ElmLinks(s)
    {
    }

    /** The nodes of a new element join the queue and the list of available pools. */
    method LinkIn(e: Elm, ghost parts: set<object>)
      requires Apart() && Sound(this, elms, home) && Queued(poolsQueue, elms, home)
      requires Offered(available, elms, avail, home) && avail == []
      requires e !in elms && e.Linked(this) && e.pool.Valid()
      requires Consists(e, parts) && parts !! home.Keys && poolsQueue !in parts && available !in parts
      modifies poolsQueue`next, poolsQueue`prev, available`next, e.queue`prev, e.queue`next, e.link`next,
               Rings(elms)`prev
      ensures IsQueue(poolsQueue, Rings([e] + elms)) && IsList(available, ElmLinks([e]))
      ensures forall d <- elms :: d.Linked(this) && d.pool.Valid() && d.pool.nsize == ecount && d.pool.esize == esize
      ensures forall d <- elms :: d.pool.frees == [] && ListIsEmpty(d.link)
      ensures e.pool.Valid() && e.Linked(this) && available.owner == None && poolsQueue.owner == None
    {
      hide Pool.Valid, Distinct, IsRing;
      NodesAreNew(e);
      RingsPrepended(e, elms);
      assert ElmLinks([e]) == [e.link] + ElmLinks(avail);
      QueueInsertAfterHead(poolsQueue, e.queue, Rings(elms));
      ListPush(available, e.link, ElmLinks(avail));
    }

    /** A new pool, all free, joins the queue and the list of available pools. */
    method AddPool(e: Elm, ghost parts: set<object>)
      requires isInited && 0 < ecount && Apart() && Sound(this, elms, home) && Queued(poolsQueue, elms, home)
      requires Offered(available, elms, avail, home) && avail == []
      requires e !in elms && e.Linked(this) && e.pool.Valid()
      requires e.pool.nsize == ecount && e.pool.esize == esize && e.pool.frees != []
      requires Consists(e, parts) && parts !! home.Keys && this !in parts && poolsQueue !in parts && available !in parts
      requires LiveIn([e] + elms, live) && Counted([e] + elms, |live|, poolCount + 1, nfree + ecount, ecount)
      modifies this, poolsQueue`next, poolsQueue`prev, available`next, e.queue`prev, e.queue`next, e.link`next
      modifies Rings(elms)`prev
      ensures Valid() && elms == [e] + old(elms) && avail == [e] && live == old(live)
    {
      hide Pool.Valid, IsQueue, IsList, AtHome, Consists, WithHome, RingsAtHome, LiveIn, Queued, Offered, Elm.Linked,
           Counted;
      Join(e, parts);
      hide Sound, ListedAtHome;
      Commit([e] + elms, [e], live, WithHome(home, parts, e), poolCount + 1, nfree + ecount);
    }

    lemma AddFacts(e: Elm, parts: set<object>, used: nat)
      requires Apart() && LiveIn(elms, live) && Counted(elms, used, poolCount, nfree, ecount)
      requires |e.pool.frees| == ecount && (forall b <- e.pool.room :: b in e.pool.frees && b !in live)
      requires Consists(e, parts) && parts !! home.Keys && this !in parts && poolsQueue !in parts && available !in parts
      ensures e !in elms && LiveIn([e] + elms, live)
      ensures Counted([e] + elms, used, poolCount + 1, nfree + ecount, ecount)
    {
      hide AtHome, Consists, WithHome, ListedAtHome, LiveIn, Counted;
      NewAtHome(elms, home, e, parts);
      NewIsFree(elms, live, e);
      NewIsCounted(elms, used, poolCount, nfree, ecount, e);
    }

    /** The element joins its manager's lists; the manager's own fields come after. */
    method Join(e: Elm, ghost parts: set<object>)
      requires Apart() && Sound(this, elms, home) && Queued(poolsQueue, elms, home)
      requires Offered(available, elms, avail, home) && avail == []
      requires e !in elms && e.Linked(this) && e.pool.Valid()
      requires e.pool.nsize == ecount && e.pool.esize == esize && e.pool.frees != []
      requires Consists(e, parts) && parts !! home.Keys && poolsQueue !in parts && available !in parts
      modifies poolsQueue`next, poolsQueue`prev, available`next, e.queue`prev, e.queue`next, e.link`next,
               Rings(elms)`prev
      ensures var es, h := [e] + elms, WithHome(home, parts, e);
              && AtHome(es, h) && ListedAtHome(es, [e], h)
              && Sound(this, es, h) && Offered(available, es, [e], h) && Queued(poolsQueue, es, h)
    {
      hide Pool.Valid, IsQueue, IsList, AtHome, Consists, WithHome, RingsAtHome, Queued, Elm.Linked;
      LinkIn(e, parts);
      hide Sound, Offered;
      NewFits(e, parts);
    }

    /** With its nodes linked in, a new element fits. */
    lemma NewFits(e: Elm, parts: set<object>)
      requires Apart() && Consists(e, parts) && parts !! home.Keys && avail == []
      requires IsQueue(poolsQueue, Rings([e] + elms)) && IsList(available, ElmLinks([e]))
      requires forall d <- elms :: d.Linked(this) && d.pool.Valid() && d.pool.nsize == ecount && d.pool.esize == esize
      requires forall d <- elms :: d.pool.frees == [] && ListIsEmpty(d.link)
      requires e.pool.Valid() && e.Linked(this) && available.owner == None && poolsQueue.owner == None
      requires e.pool.nsize == ecount && e.pool.esize == esize && e.pool.frees != []
      ensures var es, h := [e] + elms, WithHome(home, parts, e);
              && AtHome(es, h) && ListedAtHome(es, [e], h)
              && Sound(this, es, h) && Offered(available, es, [e], h) && Queued(poolsQueue, es, h)
    {
      hide Pool.Valid, IsQueue, IsList, AtHome, Consists, WithHome, RingsAtHome, Queued, Offered, Elm.Linked;
      var es, h := [e] + elms, WithHome(home, parts, e);
      NewAtHome(elms, home, e, parts);
      NewListed(elms, home, e, parts);
      NewIsSound(this, elms, home, e, parts);
      NewIsOffered(available, elms, e, h);
      NewIsQueued(poolsQueue, es, h);
    }

    /** `qp_pool_alloc` on the pool of one element leaves the others alone. */
    method TakeBlock(e: Elm, size: nat) returns (ptr: Block)
      requires Apart() && Sound(this, elms, home) && Offered(available, elms, avail, home)
      requires Queued(poolsQueue, elms, home)
      requires e in elms && e.pool.frees != [] && size <= esize
      modifies e.pool`nfree, e.pool`frees, e.pool.repr
      ensures ptr == old(e.pool.frees)[0]
      ensures Sound(this, elms, home) && Queued(poolsQueue, elms, home)
      ensures IsList(available, ElmLinks(avail)) && available.owner == None
      ensures forall d <- elms ::
                && d.pool.frees == (if d == e then old(d.pool.frees)[1..] else old(d.pool.frees))
                && ListIsEmpty(d.link) == old(ListIsEmpty(d.link))
    {
      hide Pool.Valid, IsList, IsQueue, Distinct;
      var p := e.pool.Alloc(size);
      ptr := p;
    }

    /** The pool of the first available element is full: its node leaves the list and closes on itself. */
    method CloseFirst(e: Elm)
      requires Apart() && Sound(this, elms, home) && Queued(poolsQueue, elms, home)
      requires avail != [] && avail[0] == e && IsList(available, ElmLinks(avail))
      modifies available`next, e.link`next
      ensures Sound(this, elms, home) && Queued(poolsQueue, elms, home)
      ensures IsList(available, ElmLinks(avail[1..]))
      ensures forall d <- elms :: ListIsEmpty(d.link) == (d == e || old(ListIsEmpty(d.link)))
    {
      FirstIsOut(available, ElmLinks(avail));
      hide Pool.Valid, IsQueue, IsList;
      LinksWithoutFirst(avail);
      assert ElmLinks(avail)[0] == e.link;
      PopFirst();
      CloseLink(e, avail[1..]);
    }

    method CloseLink(e: Elm, ghost av: seq<Elm>)
      requires Apart() && Sound(this, elms, home) && Queued(poolsQueue, elms, home)
      requires e in elms && IsList(available, ElmLinks(av)) && e.link !in ElmLinks(av) && e.link != available
      modifies e.link`next
      ensures Sound(this, elms, home) && Queued(poolsQueue, elms, home) && IsList(available, ElmLinks(av))
      ensures forall d <- elms :: ListIsEmpty(d.link) == (d == e || old(ListIsEmpty(d.link)))
    {
      hide Pool.Valid, IsQueue, Distinct;
      ListInit(e.link);
    }

    /** A block is taken: it is live; the counters and the list of available pools do not know yet. */
    method TakeLive(e: Elm, size: nat, ghost was: map<Elm, seq<Block>>) returns (ptr: Block)
      requires Apart() && Sound(this, elms, home) && Offered(available, elms, avail, home)
      requires Queued(poolsQueue, elms, home)
      requires e in elms && e.pool.frees != [] && size <= esize
      requires LiveBy(elms, live, was) && forall d <- elms :: was[d] == d.pool.frees
      modifies e.pool`nfree, e.pool`frees, e.pool.repr
      ensures ptr !in live && LiveIn(elms, live + {ptr})
      ensures Sound(this, elms, home) && Queued(poolsQueue, elms, home)
      ensures IsList(available, ElmLinks(avail)) && available.owner == None
      ensures forall d <- elms ::
                && d.pool.frees == (if d == e then was[d][1..] else was[d])
                && ListIsEmpty(d.link) == old(ListIsEmpty(d.link))
    {
      hide Pool.Valid, IsQueue, IsList, Queued;
      Outside(elms, home, this);
      SoundFacts(e.pool);
      SoundBlocks(this, elms, home);
      hide LiveIn, LiveBy, Distinct, AtHome, ListedAtHome;
      ptr := TakeBlock(e, size);
      SoundFacts(e.pool);
      BlockTaken(elms, home, live, was, e, ptr);
    }

    /** A block of the first available pool is taken; the pool leaves the list if it is full now. */
    method TakeOffered(e: Elm, size: nat, ghost was: map<Elm, seq<Block>>) returns (ptr: Block, ghost av: seq<Elm>)
      requires Apart() && Sound(this, elms, home) && Offered(available, elms, avail, home)
      requires Queued(poolsQueue, elms, home)
      requires avail != [] && avail[0] == e && size <= esize
      requires LiveBy(elms, live, was) && forall d <- elms :: was[d] == d.pool.frees
      modifies available`next, e.link`next, e.pool`nfree, e.pool`frees, e.pool.repr
      ensures ptr !in live && LiveIn(elms, live + {ptr})
      ensures Sound(this, elms, home) && Queued(poolsQueue, elms, home)
      ensures ListedAtHome(elms, av, home) && Offered(available, elms, av, home)
      ensures forall d <- elms :: d.pool.frees == (if d == e then was[d][1..] else was[d])
    {
      hide Pool.Valid, IsQueue, Queued;
      Outside(elms, home, this);
      Outside(elms, home, available);
      FirstLeaves(available, elms, avail, home);
      hide LiveIn, LiveBy, Distinct, AtHome, IsList;
      ptr := TakeLive(e, size, was);
      av := avail;
      if Exhausted(e) {
        hide Sound;
        CloseFirst(e);
        av := avail[1..];
      }
    }

    /** `1 > qp_pool_available` */
    predicate Exhausted(e: Elm)
      requires Apart() && Sound(this, elms, home) && e in elms
      reads this, home.Keys
      ensures Exhausted(e) <==> e.pool.frees == []
    {
      SoundFacts(e.pool);
      e.pool.Available() < 1
    }

    /** A block of the first available pool is handed out. */
    method AllocFirst(e: Elm, size: nat) returns (ptr: Block)
      requires Valid() && avail != [] && avail[0] == e && size <= esize
      modifies this, available`next, e.link`next, e.pool`nfree, e.pool`frees, e.pool.repr
      ensures Valid() && ptr !in old(live) && live == old(live) + {ptr} && elms == old(elms)
    {
      hide Pool.Valid, IsQueue, IsList, Queued;
      ghost var was, c := FreesOf(elms), FreeCounts(elms);
      Outside(elms, home, this);
      LiveBefore(elms, live);
      hide LiveIn, LiveBy, Distinct, AtHome, Offered, ListedAtHome, Sound;
      ghost var av;
      ptr, av := TakeOffered(e, size, was);
      Recounted(elms, home, was, c, e, |live|, poolCount, nfree, ecount, -1);
      OneMoreLive(live, ptr);
      hide Counted;
      Commit(elms, av, live + {ptr}, home, poolCount, nfree - 1);
    }

    /** A new element with a pool, all free, unless `malloc` fails; `parts` are its objects. */
    method NewElm() returns (e: Elm?, ghost parts: set<object>)
      ensures e != null ==>
                && fresh(e) && fresh(parts) && Consists(e, parts) && e.Linked(this) && e.pool.Valid()
                && e.pool.nsize == ecount && e.pool.esize == esize && |e.pool.frees| == ecount
                && (forall b <- e.pool.room :: b in e.pool.frees && b in parts)
    {
      hide Pushed, Pool.Valid;
      e, parts := null, {};
      if * {
        return;
      }
      var pool := PoolInit(esize, ecount);
      if pool == null {
        return;
      }
      NewPoolIsFree(pool);
      e := new Elm(pool, this);
      parts := pool.repr + {e as object} + {e.queue as object} + {e.link as object} + {pool as object};
    }

    /** A new pool, unless `malloc` fails. */
    method Grow() returns (node: Link?<Elm>)
      requires Valid() && avail == []
      modifies this, poolsQueue, available, Rings(elms)
      ensures Valid() && live == old(live)
      ensures node == null ==> elms == old(elms) && avail == []
      ensures node != null ==>
                && avail != [] && node == avail[0].link && elms == [avail[0]] + old(elms)
                && fresh(avail[0]) && fresh(node) && fresh(avail[0].pool) && fresh(avail[0].pool.repr)
    {
      hide AtHome, ListedAtHome, Sound, Offered, Queued, LiveIn, Counted, Pool.Valid, Elm.Linked;
      node := null;
      var e, parts := NewElm();
      if e != null {
        AddFacts(e, parts, |live|);
        AddPool(e, parts);
        node := e.link;
      }
    }

    lemma NewPoolIsFree(pool: Pool)
      requires pool.Valid() && pool.frees == Pushed(pool.room, pool.nsize) && pool.nsize == ecount
      ensures |pool.frees| == ecount && forall b <- pool.room :: b in pool.frees && b in pool.repr
      ensures forall o <- pool.repr :: o is Block || o is Link<Block>
    {
      PushedAt(pool.room, pool.nsize);
      forall b <- pool.room ensures b in pool.frees {
        var i :| 0 <= i < |pool.room| && pool.room[i] == b;
        assert pool.frees[|pool.room| - 1 - i] == b;
      }
    }

    /**
     `qp_manager_alloc`: a block that is not live yet, or null when the size is too large or, with every pool full,
     `malloc` fails.
     */
    method Alloc(size: nat) returns (ptr: Block?)
      requires Valid()
      modifies this, poolsQueue, available, home.Keys
      ensures Valid()
      ensures if ptr == null then live == old(live) else ptr !in old(live) && live == old(live) + {ptr}
      ensures size > esize ==> ptr == null
      ensures size <= esize && (exists e <- old(elms) :: old(e.pool.frees) != []) ==> ptr != null
    {
      hide AtHome, Sound, Queued, LiveIn, Counted, IsList;
      ptr := null;
      if size > esize {
        return;
      }
      FirstIsFirst(available, ElmLinks(avail));
      var node := ListFirst(available);
      if node == null {
        node := Grow();
        if node == null {
          return;
        }
      }
      FirstOwner();
      ptr := AllocFirst(node.owner.value, size);
    }

    lemma FirstOwner()
      requires Valid()
      ensures avail != [] ==> avail[0].link.owner == Some(avail[0])
      ensures forall e <- avail :: e in elms && e.link in home && e.pool in home && e.pool.repr <= home.Keys
    {
    }

    /** `qp_pool_free` on the pool of one element leaves the others alone. */
    method GiveBlock(e: Elm, ptr: Block)
      requires Apart() && Sound(this, elms, home) && Queued(poolsQueue, elms, home)
      requires IsList(available, ElmLinks(avail)) && available.owner == None
      requires e in elms && ptr in e.pool.room && ptr !in e.pool.frees
      modifies e.pool`nfree, e.pool`frees, e.pool.repr
      ensures Sound(this, elms, home) && Queued(poolsQueue, elms, home)
      ensures IsList(available, ElmLinks(avail)) && available.owner == None
      ensures forall d <- elms ::
                && d.pool.frees == (if d == e then [ptr] + old(d.pool.frees) else old(d.pool.frees))
                && d.link.next == old(d.link.next)
    {
      hide Pool.Valid, IsList, IsQueue, Distinct;
      var ok := e.pool.Free(ptr);
    }

    /** A live block goes back to its pool. */
    method GiveLive(e: Elm, ptr: Block, ghost was: map<Elm, seq<Block>>)
      requires Apart() && Sound(this, elms, home) && Offered(available, elms, avail, home)
      requires Queued(poolsQueue, elms, home)
      requires e in elms && ptr in e.pool.room && ptr in live
      requires LiveBy(elms, live, was) && forall d <- elms :: was[d] == d.pool.frees
      modifies e.pool`nfree, e.pool`frees, e.pool.repr
      ensures LiveIn(elms, live - {ptr})
      ensures Sound(this, elms, home) && Queued(poolsQueue, elms, home)
      ensures IsList(available, ElmLinks(avail)) && available.owner == None
      ensures forall d <- elms ::
                && d.pool.frees == (if d == e then [ptr] + was[d] else was[d])
                && d.link.next == old(d.link.next)
      ensures |e.pool.frees| == old(|e.pool.frees|) + 1
    {
      hide Pool.Valid, IsQueue, IsList, Queued;
      Outside(elms, home, this);
      SoundBlocks(this, elms, home);
      assert ptr !in was[e];
      hide LiveIn, LiveBy, Distinct, AtHome, ListedAtHome;
      GiveBlock(e, ptr);
      BlockGiven(elms, home, live, was, e, ptr);
    }

    /** A pool with a free block again joins the list of available pools. */
    method OpenElm(e: Elm)
      requires Apart() && Sound(this, elms, home) && Queued(poolsQueue, elms, home)
      requires e in elms && e !in avail && IsList(available, ElmLinks(avail)) && available.owner == None
      modifies available`next, e.link`next
      ensures Sound(this, elms, home) && Queued(poolsQueue, elms, home)
      ensures IsList(available, ElmLinks([e] + avail)) && available.owner == None
      ensures forall d <- elms :: d != e ==> ListIsEmpty(d.link) == old(ListIsEmpty(d.link))
    {
      OwnNode(e);
      hide Pool.Valid, IsQueue, IsList;
      RingsPrepended(e, avail);
      ListPush(available, e.link, ElmLinks(avail));
    }

    lemma OwnNode(e: Elm)
      requires Apart() && Sound(this, elms, home) && e in elms && e !in avail && available.owner == None
      ensures e.link !in ElmLinks(avail) && e.link != available
    {
      forall d <- avail ensures d.link != e.link {
        assert d.Linked(this) && e.Linked(this);
      }
    }

    /** The first available element leaves the list. */
    method PopFirst()
      requires Apart() && Sound(this, elms, home) && Queued(poolsQueue, elms, home)
      requires avail != [] && IsList(available, ElmLinks(avail))
      modifies available`next
      ensures Sound(this, elms, home) && Queued(poolsQueue, elms, home) && IsList(available, ElmLinks(avail[1..]))
      ensures forall d <- elms :: ListIsEmpty(d.link) == old(ListIsEmpty(d.link))
    {
      hide Pool.Valid, IsQueue, IsList;
      LinksWithoutFirst(avail);
      ListPop(available, ElmLinks(avail));
    }

    /** The element at position `i` leaves the queue. */
    method Dequeue(e: Elm, ghost i: nat, ghost av: seq<Elm>)
      requires Apart() && Sound(this, elms, home) && Queued(poolsQueue, elms, home) && i < |elms| && elms[i] == e
      requires IsList(available, ElmLinks(av)) && available.owner == None
      modifies poolsQueue`next, poolsQueue`prev, Rings(elms)`next, Rings(elms)`prev
      ensures Sound(this, elms, home) && IsQueue(poolsQueue, Rings(Without(elms, i)))
      ensures forall d <- elms :: ListIsEmpty(d.link) == old(ListIsEmpty(d.link))
      ensures IsList(available, ElmLinks(av))
    {
      hide Pool.Valid, IsQueue, IsList;
      RingsWithout(elms, i);
      QueueRemove(e.queue, poolsQueue, Rings(elms), i);
    }

    /** The pool was full: it becomes available, at the head of the list. */
    method Reoffer(e: Elm)
      requires Apart() && Sound(this, elms, home) && Queued(poolsQueue, elms, home)
      requires e in elms && e !in avail && e.pool.frees != []
      requires IsList(available, ElmLinks(avail)) && available.owner == None
      requires forall d <- elms :: d != e ==>
                 if d in avail then d.pool.frees != [] else d.pool.frees == [] && ListIsEmpty(d.link)
      modifies available`next, e.link`next
      ensures Sound(this, elms, home) && Queued(poolsQueue, elms, home)
      ensures ListedAtHome(elms, [e] + avail, home) && Offered(available, elms, [e] + avail, home)
    {
      hide Pool.Valid, IsQueue, Queued;
      OneMoreListed(elms, avail, home, e);
      Outside(elms, home, this);
      Outside(elms, home, available);
      hide AtHome, IsList, Distinct, Elm.Linked, Sound;
      OpenElm(e);
    }

    /** The pool is at the head of the list and all free: it is unlinked and destroyed. */
    method Release(e: Elm, ghost i: nat)
      requires Apart() && Sound(this, elms, home) && Queued(poolsQueue, elms, home)
      requires Offered(available, elms, avail, home)
      requires avail != [] && avail[0] == e && i < |elms| && elms[i] == e
      modifies available`next, poolsQueue`next, poolsQueue`prev, Rings(elms)`next, Rings(elms)`prev, e.pool`isInited
      ensures var es := Without(elms, i);
              && AtHome(es, home) && ListedAtHome(es, avail[1..], home)
              && Sound(this, es, home) && Offered(available, es, avail[1..], home) && Queued(poolsQueue, es, home)
    {
      hide Pool.Valid, IsQueue, IsList, Elm.Linked;
      ghost var es, av := Without(elms, i), avail[1..];
      ReleaseFacts(e, i);
      hide AtHome, RingsAtHome, Without, Sound, Distinct, Home;
      PopFirst();
      Dequeue(e, i, av);
      SoundWithout(this, elms, home, i);
      NewIsQueued(poolsQueue, es, home);
      hide Queued;
      DestroyPool(e, es, av);
    }

    lemma ReleaseFacts(e: Elm, i: nat)
      requires Apart() && Offered(available, elms, avail, home) && avail != [] && avail[0] == e && i < |elms|
      requires elms[i] == e
      ensures var es := Without(elms, i);
              && AtHome(es, home) && ListedAtHome(es, avail[1..], home) && e !in es && Home(home, e.pool, e)
              && (forall d :: d in es <==> d in elms && d != e)
      ensures forall d :: d in avail[1..] <==> d in avail && d != e
      ensures this !in e.pool.repr
    {
      hide Without, Offered;
      FirstLeaves(available, elms, avail, home);
      WithoutAtHome(elms, avail, home, i);
      WithoutMembers(elms, i);
    }

    /** `qp_pool_destroy` on a pool that is in no queue any more. */
    method DestroyPool(e: Elm, ghost es: seq<Elm>, ghost av: seq<Elm>)
      requires AtHome(es, home) && ListedAtHome(es, av, home) && e !in es && Home(home, e.pool, e) && this !in home
      requires Sound(this, es, home) && Offered(available, es, av, home) && Queued(poolsQueue, es, home)
      modifies e.pool`isInited
      ensures Sound(this, es, home) && Offered(available, es, av, home) && Queued(poolsQueue, es, home)
    {
      hide Pool.Valid, IsList, IsQueue;
      var ok := e.pool.Destroy(true);
    }

    /** A live block goes back; the counters and the list of available pools follow. */
    method GiveBack(e: Elm, ptr: Block)
      requires Valid() && e in elms && ptr in e.pool.room && ptr in live
      modifies this, available`next, poolsQueue`next, poolsQueue`prev, Rings(elms)`next, Rings(elms)`prev
      modifies e.link`next, e.pool`nfree, e.pool`frees, e.pool`isInited, e.pool.repr
      ensures Valid() && live == old(live) - {ptr}
      ensures Relisted(old(elms), old(avail), elms, avail, e, old(|e.pool.frees|) + 1, ecount)
    {
      hide Pool.Valid, IsQueue, IsList, Queued, Relisted;
      ghost var was, c := FreesOf(elms), FreeCounts(elms);
      Outside(elms, home, this);
      Outside(elms, home, available);
      LiveBefore(elms, live);
      ListedOrClosed(available, elms, avail, home);
      hide LiveIn, LiveBy, Distinct, AtHome, ListedAtHome;
      GiveLive(e, ptr, was);
      OneLessLive(live, ptr);
      Recounted(elms, home, was, c, e, |live|, poolCount, nfree, ecount, 1);
      Relist(e, live - {ptr});
    }

    /** Where the element of a block just given back belongs now. */
    method Relist(e: Elm, ghost lv: set<Block>)
      requires isInited && 0 < ecount && Apart() && e in elms
      requires Sound(this, elms, home) && Queued(poolsQueue, elms, home)
      requires IsList(available, ElmLinks(avail)) && available.owner == None
      requires LiveIn(elms, lv) && Counted(elms, |lv|, poolCount, nfree + 1, ecount)
      requires e.pool.frees != []
      requires forall d <- elms :: d in avail <==> !ListIsEmpty(d.link)
      requires forall d <- elms :: d.link.next != null
      requires forall d <- elms :: d != e ==> (d in avail <==> d.pool.frees != [])
      modifies this, available`next, poolsQueue`next, poolsQueue`prev, Rings(elms)`next, Rings(elms)`prev
      modifies e.link`next, e.pool`isInited
      ensures Valid() && live == lv && Relisted(old(elms), old(avail), elms, avail, e, old(|e.pool.frees|), ecount)
    {
      hide Pool.Valid, IsQueue, IsList, Queued, LiveIn, Counted;
      Outside(elms, home, this);
      PoolCounts(e);
      if ListFirst(e.link) == null {
        hide AtHome, Sound;
        Reoffer(e);
        hide Offered, ListedAtHome;
        Commit(elms, [e] + avail, lv, home, poolCount, nfree + 1);
      } else {
        StillOffered();
        FirstIsFirst(available, ElmLinks(avail));
        if e.pool.Used() < 1 && e.link == ListFirst(available) {
          FirstIs(e);
          ghost var i := IndexOf(elms, e);
          LeaveFacts(e, i, lv, |lv|);
          hide AtHome, Sound, Offered, ListedAtHome;
          Leave(e, i, lv, |lv|);
        } else {
          hide AtHome, Sound, Offered, ListedAtHome;
          Commit(elms, avail, lv, home, poolCount, nfree + 1);
        }
      }
    }

    /** A pool of this manager is all free when none of its blocks is used. */
    lemma PoolCounts(e: Elm)
      requires Apart() && Sound(this, elms, home) && e in elms
      ensures |e.pool.frees| == ecount <==> e.pool.Used() < 1
    {
      FreesAreFew(e.pool);
    }

    lemma StillOffered()
      requires Apart() && IsList(available, ElmLinks(avail)) && available.owner == None
      requires forall d <- elms :: if d in avail then d.pool.frees != [] else d.pool.frees == [] && ListIsEmpty(d.link)
      ensures Offered(available, elms, avail, home)
    {
    }

    lemma FirstIs(e: Elm)
      requires Apart() && Sound(this, elms, home) && e in elms && avail != [] && e.link == avail[0].link
      ensures avail[0] == e
    {
      assert avail[0].Linked(this) && e.Linked(this);
    }

    /** The pool of the first available element is all free: the element leaves the manager. */
    method Leave(e: Elm, ghost i: nat, ghost lv: set<Block>, ghost used: nat)
      requires isInited && 0 < ecount && Apart() && avail != [] && avail[0] == e && i < |elms| && elms[i] == e
      requires Sound(this, elms, home) && Queued(poolsQueue, elms, home) && Offered(available, elms, avail, home)
      requires LiveIn(Without(elms, i), lv) && used == |lv| && 0 < poolCount && ecount <= nfree + 1
      requires Counted(Without(elms, i), used, poolCount - 1, nfree + 1 - ecount, ecount) && this !in e.pool.repr
      modifies this, available`next, poolsQueue`next, poolsQueue`prev, Rings(elms)`next, Rings(elms)`prev,
               e.pool`isInited
      ensures Valid() && live == lv && elms == old(Without(elms, i)) && avail == old(avail[1..])
    {
      hide Pool.Valid, IsQueue, IsList, Queued, AtHome, Sound, Offered, ListedAtHome, LiveIn, Without, Counted;
      ghost var es, av := Without(elms, i), avail[1..];
      ReleaseLive(e, i, lv, used, poolCount - 1, nfree + 1 - ecount);
      Commit(es, av, lv, home, poolCount - 1, nfree + 1 - ecount);
    }

    lemma LeaveFacts(e: Elm, i: nat, lv: set<Block>, used: nat)
      requires Apart() && i < |elms| && elms[i] == e && Sound(this, elms, home) && e.pool.Used() < 1
      requires LiveIn(elms, lv) && Counted(elms, used, poolCount, nfree + 1, ecount)
      ensures LiveIn(Without(elms, i), lv) && 0 < poolCount && ecount <= nfree + 1
      ensures Counted(Without(elms, i), used, poolCount - 1, nfree + 1 - ecount, ecount)
      ensures this !in e.pool.repr
    {
      hide LiveIn, Counted, Without, Distinct;
      Outside(elms, home, this);
      AllIsFree(e.pool);
      LiveWithout(elms, home, lv, i);
      CountedWithout(elms, used, poolCount, nfree + 1, ecount, i);
    }

    /** Releasing a pool without live blocks leaves the live ones and the counters right. */
    method ReleaseLive(e: Elm, ghost i: nat, ghost lv: set<Block>, ghost used: nat, ghost count: nat, ghost free: int)
      requires Apart() && Sound(this, elms, home) && Queued(poolsQueue, elms, home)
      requires Offered(available, elms, avail, home)
      requires avail != [] && avail[0] == e && i < |elms| && elms[i] == e
      requires LiveIn(Without(elms, i), lv) && Counted(Without(elms, i), used, count, free, ecount)
      modifies available`next, poolsQueue`next, poolsQueue`prev, Rings(elms)`next, Rings(elms)`prev, e.pool`isInited
      ensures var es := Without(elms, i);
              && AtHome(es, home) && ListedAtHome(es, avail[1..], home)
              && Sound(this, es, home) && Offered(available, es, avail[1..], home) && Queued(poolsQueue, es, home)
              && LiveIn(es, lv) && Counted(es, used, count, free, ecount)
    {
      hide Pool.Valid, IsQueue, IsList, Queued;
      ghost var es := Without(elms, i);
      ghost var was, c := FreesOf(es), FreeCounts(es);
      LiveBefore(es, lv);
      Outside(elms, home, this);
      hide AtHome, Sound, Offered, ListedAtHome, LiveIn, LiveBy, Without;
      Release(e, i);
      LiveAfter(es, lv, was);
      assert FreeCounts(es) == c;
    }

    /**
     `qp_manager_free`: a live block of this manager goes back, a block of another manager is refused. A pool at the
     head of the list of available pools is released once none of its blocks is live.
     */
    method Free(ptr: Block?) returns (ok: bool)
      requires Valid()
      requires ptr != null ==> ptr.root != null && ptr.root.container != null
      requires ptr != null && ptr.root.container.manager == this ==> ptr in live
      modifies this, poolsQueue, available, home.Keys
      ensures Valid()
      ensures ok <==> ptr != null && old(ptr.root.container.manager) == this
      ensures live == if ok then old(live) - {ptr} else old(live)
      ensures if !ok then elms == old(elms) && avail == old(avail)
              else
                var e := old(ptr.root.container);
                && Relisted(old(elms), old(avail), elms, avail, e, old(|e.pool.frees|) + 1, ecount)
                && old(e in avail <==> e.pool.frees != [])
    {
      hide AtHome, Sound, Offered, Queued, LiveIn, Counted, ListedAtHome, Relisted;
      if ptr == null {
        return false;
      }
      var elm := ptr.root.container;
      if elm.manager != this {
        return false;
      }
      LiveOwner(ptr);
      AvailableHasFree(elm);
      GiveBack(elm, ptr);
      return true;
    }

    lemma AvailableHasFree(e: Elm)
      requires Valid() && e in elms
      ensures e in avail <==> e.pool.frees != []
    {
    }

    /** A live block leads to its element. */
    lemma LiveOwner(ptr: Block)
      requires Valid() && ptr in live && ptr.root != null && ptr.root.container != null
      ensures var e := ptr.root.container;
              && e in elms && ptr in e.pool.room
              && e.link in home && e.pool in home && e.pool.repr <= home.Keys && forall x <- Rings(elms) :: x in home
    {
      var e :| e in elms && ptr in e.pool.room;
      SoundFacts(e.pool);
      assert e.Linked(this);
    }

    /** The manager's own fields take their new values. */
    method Commit(ghost es: seq<Elm>, ghost av: seq<Elm>, ghost lv: set<Block>, ghost h: map<object, Elm>,
                  count: nat, free: nat)
      requires isInited && 0 < ecount && this !in h && poolsQueue !in h && available !in h
      requires AtHome(es, h) && ListedAtHome(es, av, h) && Sound(this, es, h) && Offered(available, es, av, h)
      requires Queued(poolsQueue, es, h) && LiveIn(es, lv) && Counted(es, |lv|, count, free, ecount)
      modifies this`elms, this`avail, this`live, this`home, this`poolCount, this`nfree
      ensures Valid() && elms == es && avail == av && live == lv && home == h && poolCount == count && nfree == free
    {
      hide AtHome, ListedAtHome, Sound, Offered, Queued, LiveIn, Counted;
      poolCount, nfree := count, free;
      elms, avail, live, home := es, av, lv, h;
    }
  }

  /** Which blocks of each pool are free. */
  ghost function FreesOf(elms: seq<Elm>): (m: map<Elm, seq<Block>>)
    reads set e <- elms :: e.pool
    ensures forall e <- elms :: e in m && m[e] == e.pool.frees
  {
    map e | e in elms :: e.pool.frees
  }

  ghost function IndexOf(elms: seq<Elm>, e: Elm): (i: nat)
    requires e in elms
    ensures i < |elms| && elms[i] == e
  {
    var i :| 0 <= i < |elms| && elms[i] == e;
    i
  }

  /**
   What becomes of a manager's pools when a block goes back to the pool of `e`, which has `free` free blocks of `all`
   then: if it was not available, it is now the first available pool; if it was the first and all its blocks are free,
   it is released; otherwise nothing changes.
   */
  ghost predicate Relisted(
    elms: seq<Elm>, avail: seq<Elm>, elms': seq<Elm>, avail': seq<Elm>, e: Elm, free: nat, all: nat)
  {
    if e !in avail then elms' == elms && avail' == [e] + avail
    else if avail[0] == e && free == all then
      e in elms && elms' == Without(elms, IndexOf(elms, e)) && avail' == avail[1..]
    else elms' == elms && avail' == avail
  }

  /** A pool has no more free blocks than blocks. */
  lemma FreesAreFew(p: Pool)
    requires p.Valid()
    ensures p.nfree == |p.frees| <= p.nsize
  {
    SoundFacts(p);
    var out, all := set b <- p.frees, set b <- p.room;
    DistinctSize(p.frees, out);
    DistinctSize(p.room, all);
    if out != all { ProperSubsetSize(out, all); }
  }

  ghost predicate LiveBy(elms: seq<Elm>, live: set<Block>, frees: map<Elm, seq<Block>>) {
    && (forall e <- elms :: e in frees && forall b <- e.pool.room :: b in live <==> b !in frees[e])
    && (forall b <- live :: exists e <- elms :: b in e.pool.room)
  }

  lemma LiveBefore(elms: seq<Elm>, live: set<Block>)
    requires LiveIn(elms, live)
    ensures LiveBy(elms, live, FreesOf(elms))
  {
  }

  lemma RoomsApart(elms: seq<Elm>, home: map<object, Elm>, d: Elm, e: Elm, b: Block)
    requires AtHome(elms, home) && d in elms && e in elms && b in d.pool.repr && b in e.pool.repr
    ensures d == e
  {
    assert Home(home, b, d) && Home(home, b, e);
  }

  /** The first free block becomes a live one. */
  lemma BlockTaken(elms: seq<Elm>, home: map<object, Elm>, live: set<Block>, was: map<Elm, seq<Block>>, e: Elm,
                   ptr: Block)
    requires AtHome(elms, home) && LiveBy(elms, live, was) && e in elms
    requires was[e] != [] && ptr == was[e][0] && Distinct(was[e]) && (forall b <- was[e] :: b in e.pool.room)
    requires forall d <- elms :: d.pool.frees == (if d == e then was[d][1..] else was[d])
    requires forall d <- elms, b <- d.pool.room :: b in d.pool.repr
    ensures ptr !in live && LiveIn(elms, live + {ptr})
  {
    assert ptr in e.pool.room;
    forall d <- elms, b <- d.pool.room ensures b in live + {ptr} <==> b !in d.pool.frees {
      assert b in was[e] <==> b == ptr || b in was[e][1..];
      if b == ptr { RoomsApart(elms, home, d, e, b); }
    }
  }

  /** A live block becomes the first free one. */
  lemma BlockGiven(elms: seq<Elm>, home: map<object, Elm>, live: set<Block>, was: map<Elm, seq<Block>>, e: Elm,
                   ptr: Block)
    requires AtHome(elms, home) && LiveBy(elms, live, was) && e in elms
    requires ptr in live && ptr in e.pool.room
    requires forall d <- elms :: d.pool.frees == (if d == e then [ptr] + was[d] else was[d])
    requires forall d <- elms, b <- d.pool.room :: b in d.pool.repr
    ensures LiveIn(elms, live - {ptr})
  {
    forall d <- elms, b <- d.pool.room ensures b in live - {ptr} <==> b !in d.pool.frees {
      if b == ptr { RoomsApart(elms, home, d, e, b); }
    }
  }

  ghost function Without(s: seq<Elm>, i: nat): (r: seq<Elm>)
    requires i < |s|
  {
    s[..i] + s[i + 1..]
  }

  lemma OneMoreListed(elms: seq<Elm>, avail: seq<Elm>, home: map<object, Elm>, e: Elm)
    requires AtHome(elms, home) && ListedAtHome(elms, avail, home) && e in elms
    ensures ListedAtHome(elms, [e] + avail, home)
  {
    forall x <- ElmLinks([e] + avail) ensures x in home {
      if x != e.link {
        assert x in ElmLinks(avail);
      }
    }
  }

  lemma WithoutMembers(s: seq<Elm>, i: nat)
    requires i < |s| && Distinct(s)
    ensures Distinct(Without(s, i)) && forall d :: d in Without(s, i) <==> d in s && d != s[i]
  {
    DistinctWithout(s, i);
    forall d ensures d in Without(s, i) <==> d in s && d != s[i] {
      if d in s && d != s[i] {
        var j :| 0 <= j < |s| && s[j] == d;
        assert Without(s, i)[if j < i then j else j - 1] == d;
      }
    }
  }

  /** Without one element, and with that one not available, all others stay at home. */
  lemma WithoutAtHome(elms: seq<Elm>, avail: seq<Elm>, home: map<object, Elm>, i: nat)
    requires AtHome(elms, home) && ListedAtHome(elms, avail, home) && i < |elms| && avail != [] && avail[0] == elms[i]
    requires ListedAtHome(elms, avail[1..], home) && elms[i] !in avail[1..]
    ensures var es := Without(elms, i);
            && AtHome(es, home) && ListedAtHome(es, avail[1..], home) && elms[i] !in es
            && Home(home, elms[i].pool, elms[i])
  {
    var es := Without(elms, i);
    WithoutMembers(elms, i);
    RingsWithout(elms, i);
    forall x <- Rings(es) ensures x in home {
      assert x in Rings(elms);
    }
  }

  lemma SoundWithout(m: Manager, elms: seq<Elm>, home: map<object, Elm>, i: nat)
    requires AtHome(elms, home) && Sound(m, elms, home) && i < |elms| && AtHome(Without(elms, i), home)
    ensures Sound(m, Without(elms, i), home)
  {
    WithoutMembers(elms, i);
    hide Pool.Valid, Elm.Linked, Without;
  }

  lemma OneLessLive(live: set<Block>, ptr: Block)
    requires ptr in live
    ensures |live - {ptr}| == |live| - 1
  {
  }

  /** A node closes on itself exactly when its element is not available. */
  lemma ListedOrClosed(head: Link<Elm>, elms: seq<Elm>, avail: seq<Elm>, home: map<object, Elm>)
    requires AtHome(elms, home) && ListedAtHome(elms, avail, home) && Offered(head, elms, avail, home)
    ensures forall d <- elms :: (d in avail <==> !ListIsEmpty(d.link)) && d.link.next != null
    ensures forall d <- elms :: d in avail <==> d.pool.frees != []
  {
    forall d <- elms | d in avail ensures !ListIsEmpty(d.link) && d.link.next != null {
      var i :| 0 <= i < |avail| && avail[i] == d;
      assert ElmLinks(avail)[i] == d.link;
      MembersDoNotClose(head, ElmLinks(avail), d.link);
    }
  }

  /** A sound pool with none of its blocks used has all of them free. */
  lemma AllIsFree(p: Pool)
    requires p.Valid() && p.Used() < 1
    ensures |p.frees| == p.nsize && forall b <- p.room :: b in p.frees
  {
    hide IsList;
    EveryOne(p.frees, p.room);
  }

  /** As many distinct members as there are: all of them. */
  lemma EveryOne<T>(a: seq<T>, b: seq<T>)
    requires Distinct(a) && Distinct(b) && |a| >= |b| && forall x <- a :: x in b
    ensures |a| == |b| && forall x <- b :: x in a
  {
    var sa, sb := set x <- a, set x <- b;
    DistinctSize(a, sa);
    DistinctSize(b, sb);
    if sa != sb {
      ProperSubsetSize(sa, sb);
    }
    assert forall x <- b :: x in sb;
  }

  lemma {:induction false} DistinctSize<T>(a: seq<T>, s: set<T>)
    requires Distinct(a) && s == set x <- a
    ensures |s| == |a|
  {
    if a != [] {
      var rest := a[1..];
      DistinctSize(rest, set x <- rest);
      assert a[0] !in rest;
      assert s == (set x <- rest) + {a[0]};
    }
  }

  lemma ProperSubsetSize<T>(a: set<T>, b: set<T>)
    requires a < b
    ensures |a| < |b|
  {
    assert b == a + (b - a);
  }

  lemma LiveWithout(elms: seq<Elm>, home: map<object, Elm>, live: set<Block>, i: nat)
    requires AtHome(elms, home) && LiveIn(elms, live) && i < |elms|
    requires forall b <- elms[i].pool.room :: b in elms[i].pool.frees
    ensures LiveIn(Without(elms, i), live)
  {
    WithoutMembers(elms, i);
    hide Without;
    forall b <- live ensures exists e <- Without(elms, i) :: b in e.pool.room {
      var e :| e in elms && b in e.pool.room;
    }
  }

  lemma LiveAfter(elms: seq<Elm>, live: set<Block>, frees: map<Elm, seq<Block>>)
    requires LiveBy(elms, live, frees) && forall e <- elms :: e.pool.frees == frees[e]
    ensures LiveIn(elms, live)
  {
  }

  lemma CountedWithout(elms: seq<Elm>, used: int, poolCount: nat, nfree: int, ecount: nat, i: nat)
    requires Counted(elms, used, poolCount, nfree, ecount) && i < |elms| && |elms[i].pool.frees| == ecount
    ensures 0 < poolCount && Counted(Without(elms, i), used, poolCount - 1, nfree - ecount, ecount) && ecount <= nfree
  {
    hide FreeCounts, Sum;
    var c, es := FreeCounts(elms), Without(elms, i);
    assert FreeCounts(es) == c[..i] + c[i + 1..];
    SumWithout(c, i);
    OneLess(poolCount, ecount);
  }

  lemma OneLess(a: nat, b: nat)
    requires 0 < a
    ensures (a - 1) * b == a * b - b
  {
  }

  lemma FirstIsOut(head: Link<Elm>, s: seq<Link<Elm>>)
    requires IsList(head, s) && s != []
    ensures s[0] != head && s[0] !in s[1..]
  {
  }

  lemma LinksWithoutFirst(s: seq<Elm>)
    requires s != []
    ensures ElmLinks(s)[1..] == ElmLinks(s[1..])
  {
  }

  lemma RingsWithout(s: seq<Elm>, i: nat)
    requires i < |s|
    ensures Rings(Without(s, i)) == Rings(s)[..i] + Rings(s)[i + 1..]
  {
  }

  /** Without its first element the list of available pools has all others. */
  lemma FirstLeaves(head: Link<Elm>, elms: seq<Elm>, avail: seq<Elm>, home: map<object, Elm>)
    requires AtHome(elms, home) && ListedAtHome(elms, avail, home) && Offered(head, elms, avail, home) && avail != []
    ensures forall d :: d in avail[1..] <==> d in avail && d != avail[0]
    ensures ListedAtHome(elms, avail[1..], home)
  {
    var l, rest := ElmLinks(avail), avail[1..];
    assert forall i :: 0 < i < |avail| ==> l[i] != l[0];
    assert ElmLinks(rest) == l[1..];
  }

  lemma OneMoreLive(live: set<Block>, ptr: Block)
    requires ptr !in live
    ensures |live + {ptr}| == |live| + 1
  {
  }

  lemma SoundBlocks(m: Manager, elms: seq<Elm>, home: map<object, Elm>)
    requires AtHome(elms, home) && Sound(m, elms, home)
    ensures forall d <- elms, b <- d.pool.room :: b in d.pool.repr
  {
    forall d <- elms ensures forall b <- d.pool.room :: b in d.pool.repr {
      SoundFacts(d.pool);
    }
  }

  /** One pool's free blocks become one more or one less. */
  lemma Recounted(
    elms: seq<Elm>, home: map<object, Elm>, was: map<Elm, seq<Block>>, c: seq<nat>, e: Elm,
    used: nat, poolCount: nat, nfree: nat, ecount: nat, delta: int)
    requires AtHome(elms, home) && e in elms && (forall d <- elms :: d in was)
    requires |c| == |elms| && forall j :: 0 <= j < |c| ==> c[j] == |was[elms[j]]|
    requires poolCount == |elms| && nfree == Sum(c) && used + nfree == poolCount * ecount
    requires forall d <- elms :: d != e ==> d.pool.frees == was[d]
    requires |e.pool.frees| == |was[e]| + delta && -1 <= delta <= 1 && (delta == 1 ==> 0 < used)
    ensures 0 <= nfree + delta && Counted(elms, used - delta, poolCount, nfree + delta, ecount)
  {
    var i := IndexOf(elms, e);
    assert FreeCounts(elms) == c[i := c[i] + delta];
    SumUpdated(c, i, c[i] + delta);
  }

  lemma SoundFacts(p: Pool)
    requires p.Valid()
    ensures p.nfree == |p.frees| && p.nsize == |p.room| && Distinct(p.frees) && (forall b <- p.frees :: b in p.room)
    ensures forall b <- p.room :: b in p.repr && b.root == p
  {
  }

  lemma NewIsQueued(head: Ring<Elm>, elms: seq<Elm>, home: map<object, Elm>)
    requires RingsAtHome(elms, home) && IsQueue(head, Rings(elms)) && head.owner == None
    ensures Queued(head, elms, home)
  {
  }

  lemma NewIsOffered(head: Link<Elm>, elms: seq<Elm>, e: Elm, home: map<object, Elm>)
    requires AtHome([e] + elms, home) && ListedAtHome([e] + elms, [e], home)
    requires IsList(head, ElmLinks([e])) && head.owner == None && e.pool.frees != []
    requires forall d <- elms :: d.pool.frees == [] && ListIsEmpty(d.link)
    ensures Offered(head, [e] + elms, [e], home)
  {
    hide IsList;
    assert ([e] + elms)[0] == e;
    assert forall i :: 1 <= i < |[e] + elms| ==> ([e] + elms)[i] == elms[i - 1];
  }

  lemma NewIsSound(m: Manager, elms: seq<Elm>, home: map<object, Elm>, e: Elm, parts: set<object>)
    requires AtHome(elms, home) && Consists(e, parts) && parts !! home.Keys
    requires forall d <- elms :: d.Linked(m) && d.pool.Valid() && d.pool.nsize == m.ecount && d.pool.esize == m.esize
    requires e.Linked(m) && e.pool.Valid() && e.pool.nsize == m.ecount && e.pool.esize == m.esize
    ensures AtHome([e] + elms, WithHome(home, parts, e)) && Sound(m, [e] + elms, WithHome(home, parts, e))
  {
    NewAtHome(elms, home, e, parts);
    hide Pool.Valid, WithHome, AtHome;
  }

  lemma NewIsFree(elms: seq<Elm>, live: set<Block>, e: Elm)
    requires LiveIn(elms, live) && forall b <- e.pool.room :: b in e.pool.frees && b !in live
    ensures LiveIn([e] + elms, live)
  {
    assert forall d <- elms :: d in [e] + elms;
  }

  /** The objects of a new element are at home in it. */
  ghost function WithHome(home: map<object, Elm>, parts: set<object>, e: Elm): (h: map<object, Elm>)
    requires parts !! home.Keys
    ensures forall o <- home :: o in h && h[o] == home[o]
    ensures forall o <- parts :: o in h && h[o] == e
    ensures h.Keys == home.Keys + parts
  {
    map o | o in home.Keys + parts :: if o in home then home[o] else e
  }
}
