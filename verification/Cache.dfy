/**
 The worker's cache of parsed files (htaccess_cache.c): an intrusive circular queue with
 a sentinel, most recently used entry first.
 */
module Cache {
  import opened Options
  import opened Bytes
  import opened Directives
  import opened CacheModel

  const MAX_DEFAULT: nat := 1024

  /** A queue link together with the entry it is embedded in.  The sentinel's entry fields are never read. */
  class Link {
    var prev: Link?
    var next: Link?
    const path: Text
    const mtime: int
    const size: int
    const parsed: Option<ParsedFile>
    ghost const stamp: nat

    constructor (path: Text, mtime: int, size: int, parsed: Option<ParsedFile>, ghost stamp: nat)
      ensures Value() == Entry(path, mtime, size, parsed, stamp)
    {
      this.path, this.mtime, this.size, this.parsed, this.stamp := path, mtime, size, parsed, stamp;
      prev, next := null, null;
    }

    ghost function Value(): Entry {
      Entry(path, mtime, size, parsed, stamp)
    }
  }

  ghost function Values(links: seq<Link>): (c: seq<Entry>)
    ensures |c| == |links|
    ensures forall k :: 0 <= k < |links| ==> c[k] == links[k].Value()
  {
    if links == [] then [] else [links[0].Value()] + Values(links[1..])
  }

  ghost function Ring(head: Link, links: seq<Link>): seq<Link> {
    [head] + links + [head]
  }

  /** The circle from `head` through `links` and back is joined in both directions. */
  ghost predicate Joined(head: Link, links: seq<Link>)
    reads head, links
  {
    forall k :: 0 <= k <= |links| ==> JoinedAt(Ring(head, links), k)
  }

  ghost predicate JoinedAt(ring: seq<Link>, k: nat)
    requires k + 1 < |ring|
    reads ring
  {
    ring[k].next == ring[k + 1] && ring[k + 1].prev == ring[k]
  }

  ghost predicate Distinct(head: Link, links: seq<Link>) {
    && head !in links
    && forall i, j :: 0 <= i < j < |links| ==> links[i] != links[j]
  }

  /** `ngx_queue_remove`. */
  method Unlink(head: Link, ghost links: seq<Link>, q: Link, ghost k: nat)
    requires Distinct(head, links) && Joined(head, links)
    requires k < |links| && links[k] == q
    modifies head, links
    ensures Distinct(head, links[..k] + links[k + 1..]) && Joined(head, links[..k] + links[k + 1..])
  {
    ghost var ring := Ring(head, links);
    assert ring[k + 1] == q && JoinedAt(ring, k) && JoinedAt(ring, k + 1);
    q.next.prev := q.prev;
    q.prev.next := q.next;
    ghost var rest := links[..k] + links[k + 1..];
    ghost var ring' := Ring(head, rest);
    assert forall i :: 0 <= i <= k ==> ring'[i] == ring[i];
    assert forall i :: k < i < |ring'| ==> ring'[i] == ring[i + 1];
    forall i | 0 <= i <= |rest| ensures JoinedAt(ring', i) {
      assert old(JoinedAt(ring, if i <= k then i else i + 1));
    }
  }

  /** `ngx_queue_insert_head`. */
  method InsertHead(head: Link, ghost links: seq<Link>, q: Link)
    requires Distinct(head, links) && Joined(head, links)
    requires q != head && q !in links
    modifies head, links, q
    ensures Distinct(head, [q] + links) && Joined(head, [q] + links)
  {
    ghost var ring := Ring(head, links);
    assert JoinedAt(ring, 0);
    q.next := head.next;
    q.next.prev := q;
    q.prev := head;
    head.next := q;
    ghost var ring' := Ring(head, [q] + links);
    assert ring'[0] == head && ring'[1] == q;
    assert forall i :: 2 <= i < |ring'| ==> ring'[i] == ring[i - 1];
    forall i | 0 <= i <= |links| + 1 ensures JoinedAt(ring', i) {
      if i > 1 { assert old(JoinedAt(ring, i - 1)); }
    }
  }

  type Capacity = n: nat | 1 <= n witness 1

  class LruCache {
    const lru: Link
    const maxEntries: Capacity
    var count: nat
    ghost var links: seq<Link>
    ghost var clock: nat

    ghost predicate Valid()
      reads this, lru, links
    {
      && Distinct(lru, links)
      && Joined(lru, links)
      && count == |links| <= maxEntries
    }

    ghost function Contents(): seq<Entry>
      reads this
    {
      Values(links)
    }

    ghost function Repr(): set<object>
      reads this
    {
      {this, lru} + set l | l in links
    }

    constructor (max: nat)
      ensures Valid() && fresh(Repr()) && Contents() == [] && clock == 0
      ensures maxEntries == if max != 0 then max else 1024
    {
      var head := new Link([], 0, 0, None, 0);
      head.prev, head.next := head, head;
      lru := head;
      maxEntries := if max != 0 then max else MAX_DEFAULT;
      count := 0;
      links := [];
      clock := 0;
    }

    /** Unlinks the least recently used entry. */
    method Evict()
      requires Valid()
      modifies Repr()
      ensures Valid() && Repr() <= old(Repr())
      ensures links == if old(links) == [] then [] else old(links)[..|old(links)| - 1]
      ensures Contents() == DropTail(old(Contents())) && clock == old(clock)
    {
      assert JoinedAt(Ring(lru, links), 0) && JoinedAt(Ring(lru, links), |links|);
      if lru.next == lru {
        return;
      }
      var q := lru.prev;
      ghost var n := |links| - 1;
      assert q == links[n];
      Unlink(lru, links, q, n);
      assert links[..n] + links[n + 1..] == links[..n];
      links := links[..n];
      count := count - 1;
    }

    /** Moves the linked entry `q` to the head of the queue. */
    method Relink(q: Link, ghost k: nat)
      requires Valid() && k < |links| && links[k] == q
      modifies Repr()
      ensures Valid() && Repr() == old(Repr()) && clock == old(clock)
      ensures links != [] && links[0] == q
      ensures Contents() == MoveToFront(old(Contents()), k)
    {
      Unlink(lru, links, q, k);
      ghost var rest := links[..k] + links[k + 1..];
      InsertHead(lru, rest, q);
      links := [q] + rest;
      assert forall l :: l in links <==> l in old(links);
    }

    /** The first entry for `path`, moved to the head of the queue; null if there is none. */
    method Find(path: Text) returns (e: Link?)
      requires Valid()
      modifies Repr()
      ensures Valid() && clock == old(clock)
      ensures Repr() == old(Repr())
      ensures var i := PathIndex(old(Contents()), path);
              if i == |old(Contents())| then
                e == null && Contents() == old(Contents())
              else
                && e != null && links != [] && e == links[0]
                && Contents() == MoveToFront(old(Contents()), i)
    {
      ghost var c := Contents();
      ghost var k := 0;
      var q := lru.next;
      assert JoinedAt(Ring(lru, links), 0);
      while q != lru
        invariant 0 <= k <= |links|
        invariant q == Ring(lru, links)[k + 1]
        invariant forall j :: 0 <= j < k ==> links[j].path != path
        invariant Valid() && links == old(links)
        decreases |links| - k
      {
        assert q == links[k];
        if q.path == path {
          PathIndexIs(c, path, k);
          Relink(q, k);
          return q;
        }
        assert JoinedAt(Ring(lru, links), k + 1);
        q := q.next;
        k := k + 1;
      }
      PathIndexIs(c, path, |c|);
      return null;
    }

    /**
     The current entry for `path`, given what a stat of it says now.  An entry that is no
     longer current is not returned, and the entry evicted on its account is the tail.
     */
    method Lookup(path: Text, stat: Stat) returns (e: Link?)
      requires Valid()
      modifies Repr()
      ensures Valid() && clock == old(clock)
      ensures Repr() <= old(Repr())
      ensures var found := CacheModel.Lookup(old(Contents()), path, stat);
              && Contents() == found.entries
              && (e == null <==> found.hit == None)
              && (e != null ==> e in links && found.hit == Some(e.Value()))
    {
      e := Find(path);
      if e == null {
        return;
      }
      if e.parsed.None? {
        if stat.NoFile? {
          return;
        }
        Evict();
        return null;
      }
      if stat.NoFile? {
        Evict();
        return null;
      }
      if e.mtime == stat.mtime && e.size == stat.size {
        return;
      }
      Evict();
      return null;
    }

    /** Makes room and links a new entry at the head.  `parsed` is None for a negative entry. */
    method Store(path: Text, mtime: int, size: int, parsed: Option<ParsedFile>)
      requires Valid()
      modifies Repr()
      ensures Valid() && fresh(Repr() - old(Repr())) && clock == old(clock) + 1
      ensures Contents() == [Entry(path, mtime, size, parsed, old(clock))] + Kept(old(Contents()), maxEntries)
    {
      while count >= maxEntries
        invariant Valid() && clock == old(clock)
        invariant links <= old(links) && Repr() <= old(Repr())
        invariant |links| == |old(links)| || |links| == maxEntries - 1
        decreases count
      {
        Evict();
      }
      assert Contents() == Kept(old(Contents()), maxEntries);
      var e := new Link(path, mtime, size, parsed, clock);
      InsertHead(lru, links, e);
      links := [e] + links;
      count := count + 1;
      clock := clock + 1;
    }
  }

  lemma PathIndexIs(c: seq<Entry>, path: Text, k: nat)
    requires k <= |c|
    requires forall j :: 0 <= j < k ==> c[j].path != path
    requires k < |c| ==> c[k].path == path
    ensures PathIndex(c, path) == k
  {
  }
}
