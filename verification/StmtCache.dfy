/**
 * The statement cache as it is stored: entries that sit both on a doubly linked
 * recency list and on a chain of a power-of-two hash table.
 */
module StmtCaching {
  import opened Core
  import opened Bits
  import opened LruSpec
  import opened Driving

  const MIN_BUCKETS: nat := 16
  const SIZE_MAX_PLUS_ONE: nat := 0x1_0000_0000_0000_0000

  // ---- Hashing and table size ------------------------------------------------------------

  /** djb2 over unsigned chars, wrapping at the width of size_t. */
  function HashFrom(h: nat, s: string): nat
    decreases |s|
  {
    if s == "" then h
    else HashFrom((h * 33 + s[0] as int % 256) % SIZE_MAX_PLUS_ONE, s[1..])
  }

  function Hash(s: string): nat {
    HashFrom(5381, s)
  }

  method HashSql(sql: string) returns (h: nat)
    ensures h == Hash(sql)
  {
    h := 5381;
    for i := 0 to |sql|
      invariant HashFrom(h, sql[i..]) == Hash(sql)
    {
      assert sql[i..][1..] == sql[i + 1..];
      h := (h * 33 + sql[i] as int % 256) % SIZE_MAX_PLUS_ONE;
    }
  }

  /** The bucket of a key in a table of `n` buckets, by masking as the source does. */
  function Slot(sql: string, n: nat): (b: nat)
    requires n > 0
    ensures b < n
  {
    BitAnd(Hash(sql), n - 1)
  }

  function BucketCount(capacity: nat): (n: nat)
    ensures capacity > 0 ==> n >= 2 * capacity && n >= MIN_BUCKETS
    ensures capacity == 0 ==> n == 0
  {
    if capacity == 0 then 0 else DoubleUntil(1, Max(2 * capacity, MIN_BUCKETS))
  }

  lemma {:induction false} DoubleUntilIsPow2(k: nat, n: nat) returns (j: nat)
    ensures DoubleUntil(Pow2(k), n) == Pow2(j)
    decreases n - Pow2(k)
  {
    if Pow2(k) >= n { j := k; } else { j := DoubleUntilIsPow2(k + 1, n); }
  }

  /** The table has a power-of-two number of buckets, so masking a hash is reducing it modulo that number. */
  lemma {:induction false} SlotIsModulo(sql: string, capacity: nat)
    requires capacity > 0
    ensures Slot(sql, BucketCount(capacity)) == Hash(sql) % BucketCount(capacity)
  {
    hide Hash;
    var j := DoubleUntilIsPow2(0, Max(2 * capacity, MIN_BUCKETS));
    MaskIsModulo(Hash(sql), j);
  }

  /**
   * Repeated shifting of 1 on a 64-bit size_t reaches `n` exactly when `n` is at most 2^63: beyond that
   * the shifted bit falls off and the loop never ends.
   */
  lemma {:induction false} DoublingReaches(n: nat)
    ensures (exists k: nat :: Pow2(k) % SIZE_MAX_PLUS_ONE >= n) <==> n <= SIZE_MAX_PLUS_ONE / 2
  {
    PowersOfTwo();
    assert Pow2(63) % SIZE_MAX_PLUS_ONE == SIZE_MAX_PLUS_ONE / 2;
    forall k: nat ensures Pow2(k) % SIZE_MAX_PLUS_ONE <= SIZE_MAX_PLUS_ONE / 2 {
      if k <= 63 {
        Pow2Monotone(k, 63);
      } else {
        Pow2Add(64, k - 64);
        assert Pow2(64) == 2 * Pow2(63);
        ModuloUnique(Pow2(k), SIZE_MAX_PLUS_ONE, Pow2(k - 64), 0);
      }
    }
  }

  /** The doubling loop on size_t; up to 2^63 it ends before a shift can wrap. */
  method NextPow2AtLeast(n: nat) returns (r: nat)
    requires n <= SIZE_MAX_PLUS_ONE / 2
    ensures r == DoubleUntil(1, n) && r <= SIZE_MAX_PLUS_ONE / 2 && exists k :: r == Pow2(k)
    ensures n <= r && forall k: nat :: Pow2(k) >= n ==> r <= Pow2(k)
  {
    r := 1;
    ghost var k := 0;
    assert Pow2(63) == SIZE_MAX_PLUS_ONE / 2 by { PowersOfTwo(); }
    while r < n
      invariant r == Pow2(k) && k <= 63 && (k > 0 ==> Pow2(k - 1) < n)
      invariant DoubleUntil(r, n) == DoubleUntil(1, n)
      decreases 63 - k
    {
      if k == 63 { assert false; }
      r, k := 2 * r % SIZE_MAX_PLUS_ONE, k + 1;
      Pow2Monotone(k, 63);
    }
    Pow2Monotone(k, 63);
    forall j: nat | Pow2(j) >= n ensures r <= Pow2(j) {
      if j < k { Pow2Monotone(j, k - 1); } else { Pow2Monotone(k, j); }
    }
  }

  lemma {:induction false} PowersOfTwo()
    ensures Pow2(63) == SIZE_MAX_PLUS_ONE / 2
  {
    assert Pow2(15) == 0x8000 && Pow2(16) == 0x1_0000;
    Pow2Add(16, 16);
    Pow2Add(16, 32);
    Pow2Add(15, 48);
  }

  class Entry {
    const sql: string
    var stmt: StmtId
    var lruPrev: Entry?
    var lruNext: Entry?
    var bucketNext: Entry?

    constructor (sql: string, stmt: StmtId)
      ensures this.sql == sql && this.stmt == stmt
      ensures lruPrev == null && lruNext == null && bucketNext == null
    {
      this.sql, this.stmt := sql, stmt;
      lruPrev, lruNext, bucketNext := null, null, null;
    }
  }

  /** `entries` are the keyed statements on the list `s`. */
  ghost predicate Lists(s: seq<Entry>, entries: seq<Cached>)
    reads s`stmt
  {
    && |entries| == |s|
    && forall i :: 0 <= i < |s| ==> entries[i].sql == s[i].sql && entries[i].stmt == s[i].stmt
  }

  lemma {:induction false} ListsToFront(s: seq<Entry>, entries: seq<Cached>, k: nat)
    requires Lists(s, entries) && k < |s|
    ensures Lists(ToFront(s, k), ToFront(entries, k))
  {
  }

  lemma {:induction false} ListsCons(e: Entry, s: seq<Entry>, entries: seq<Cached>)
    requires Lists(s, entries)
    ensures Lists([e] + s, [Cached(e.sql, e.stmt)] + entries)
  {
  }

  lemma {:induction false} ListsPrefix(s: seq<Entry>, entries: seq<Cached>, n: nat)
    requires Lists(s, entries) && n <= |s|
    ensures Lists(s[..n], entries[..n])
  {
  }

  lemma {:induction false} SameEntriesCons(nodes: set<Entry>, order: seq<Entry>, e: Entry)
    requires SameEntries(nodes, order)
    ensures SameEntries(nodes + {e}, [e] + order)
    ensures e !in nodes ==> e !in order
  {
  }

  /** The list and the table hold the same entries. */
  ghost predicate SameEntries(nodes: set<Entry>, order: seq<Entry>) {
    && (forall e :: e in nodes ==> e in order)
    && (forall i :: 0 <= i < |order| ==> order[i] in nodes)
  }

  lemma {:induction false} ListedIsChained(nodes: set<Entry>, order: seq<Entry>)
    requires SameEntries(nodes, order)
    ensures forall e :: e in order ==> e in nodes
  {
  }

  ghost predicate KeysApart(nodes: set<Entry>) {
    forall n, m :: n in nodes && m in nodes && n != m ==> n.sql != m.sql
  }

  ghost function Elements(s: seq<Entry>): set<Entry> {
    set e | e in s
  }

  lemma {:induction false} ElementsAll(all: set<Entry>, order: seq<Entry>)
    requires SameEntries(all, order)
    ensures Elements(order) == all
  {
  }

  /** The next entry of the list is new among those before it, and so is its key. */
  lemma {:induction false} NextUnchained(all: set<Entry>, order: seq<Entry>, i: nat)
    requires SameEntries(all, order) && KeysApart(all) && Distinct(order) && i < |order|
    ensures order[i] in all && forall n :: n in Elements(order[..i]) ==> n.sql != order[i].sql
    ensures Elements(order[..i + 1]) == Elements(order[..i]) + {order[i]}
  {
    forall n | n in Elements(order[..i]) ensures n.sql != order[i].sql {
      var j :| 0 <= j < i && order[j] == n;
      assert n in all && order[j] != order[i];
    }
    assert order[..i + 1] == order[..i] + [order[i]];
  }

  lemma {:induction false} SameEntriesToFront(nodes: set<Entry>, order: seq<Entry>, k: nat)
    requires k < |order| && SameEntries(nodes, order)
    ensures SameEntries(nodes, ToFront(order, k))
  {
    ToFrontSame(order, k);
  }

  lemma {:induction false} SameEntriesDrop(nodes: set<Entry>, order: seq<Entry>)
    requires order != [] && SameEntries(nodes, order) && Distinct(order)
    ensures var n := |order| - 1; SameEntries(nodes - {order[n]}, order[..n])
  {
  }

  /** Where an entry is chained: its bucket, and a rank that falls along the chain. */
  datatype Place = Place(slot: nat, rank: nat)

  ghost function At(s: seq<Entry>, i: int): Entry? {
    if 0 <= i < |s| then s[i] else null
  }

  ghost predicate Linked(s: seq<Entry>)
    reads s`lruPrev, s`lruNext
  {
    && (forall i {:trigger s[i].lruPrev} :: 0 <= i < |s| ==> s[i].lruPrev == At(s, i - 1))
    && (forall i {:trigger s[i].lruNext} :: 0 <= i < |s| ==> s[i].lruNext == At(s, i + 1))
  }

  /** The links of `s` once its k-th entry has been bypassed. */
  ghost predicate LinkedAround(s: seq<Entry>, k: nat)
    reads s`lruPrev, s`lruNext
  {
    && (forall i {:trigger s[i].lruPrev} :: 0 <= i < |s| && i != k ==>
          s[i].lruPrev == At(s, if i == k + 1 then k - 1 else i - 1))
    && (forall i {:trigger s[i].lruNext} :: 0 <= i < |s| && i != k ==>
          s[i].lruNext == At(s, if i == k - 1 then k + 1 else i + 1))
  }

  lemma {:induction false} RemoveEnds(s: seq<Entry>, k: nat)
    requires k < |s| && Distinct(s)
    ensures var r := Remove(s, k);
            && At(r, 0) == (if k == 0 then At(s, 1) else s[0])
            && At(r, |r| - 1) == (if k == |s| - 1 then At(s, |s| - 2) else s[|s| - 1])
            && Distinct(r)
  {
  }

  lemma {:induction false} LinkedRemove(s: seq<Entry>, k: nat)
    requires k < |s| && LinkedAround(s, k)
    ensures Linked(Remove(s, k))
  {
    var r := Remove(s, k);
    forall i | 0 <= i < |r|
      ensures r[i].lruPrev == At(r, i - 1) && r[i].lruNext == At(r, i + 1)
    {
      var j := if i < k then i else i + 1;
      assert r[i] == s[j];
      assert s[j].lruPrev == At(s, if j == k + 1 then k - 1 else j - 1);
      assert s[j].lruNext == At(s, if j == k - 1 then k + 1 else j + 1);
    }
  }

  /**
   * The hash table on values: the bucket heads, and for the entries in `nodes` their place and
   * their chain successor. A head is the highest entry of its bucket and a successor the highest
   * one below, so ranks fall along a chain and every entry of a bucket is reached from its head.
   */
  ghost predicate Chained(
    heads: seq<Entry?>, nodes: set<Entry>, next: map<Entry, Entry?>, place: map<Entry, Place>, clock: nat)
  {
    && Placed(|heads|, nodes, place, clock)
    && Headed(heads, nodes, place)
    && Followed(nodes, next, place)
  }

  lemma {:induction false} NoneChained(next: map<Entry, Entry?>, place: map<Entry, Place>, clock: nat)
    ensures Chained([], {}, next, place, clock) && Slotted(0, {}, place) && SameEntries({}, [])
    ensures Lists([], []) && Linked([]) && Distinct<Entry>([])
  {
  }

  ghost predicate Placed(count: nat, nodes: set<Entry>, place: map<Entry, Place>, clock: nat) {
    && (forall n :: n in nodes ==> n in place && place[n].rank < clock && place[n].slot < count)
    && (forall n, m :: n in nodes && m in nodes && n != m ==> place[n].rank != place[m].rank && n.sql != m.sql)
  }

  ghost predicate Headed(heads: seq<Entry?>, nodes: set<Entry>, place: map<Entry, Place>)
    requires forall n :: n in nodes ==> n in place
  {
    && (forall b :: 0 <= b < |heads| && heads[b] != null ==> heads[b] in nodes && place[heads[b]].slot == b)
    && (forall b, n {:trigger heads[b], n in nodes} :: 0 <= b < |heads| && n in nodes && place[n].slot == b ==>
          heads[b] != null && place[n].rank <= place[heads[b]].rank)
  }

  ghost predicate Followed(nodes: set<Entry>, next: map<Entry, Entry?>, place: map<Entry, Place>)
    requires forall n :: n in nodes ==> n in place
  {
    && (forall n :: n in nodes ==> n in next)
    && (forall n {:trigger next[n]} :: n in nodes && next[n] != null ==>
          next[n] in nodes && place[next[n]].slot == place[n].slot && place[next[n]].rank < place[n].rank)
    && (forall n, m {:trigger next[n], m in nodes} ::
          n in nodes && m in nodes && place[m].slot == place[n].slot && place[m].rank < place[n].rank ==>
            next[n] != null && place[m].rank <= place[next[n]].rank)
  }

  /** Every entry is placed in the bucket its hash names. */
  ghost predicate Slotted(count: nat, nodes: set<Entry>, place: map<Entry, Place>) {
    forall n :: n in nodes ==> count > 0 && n in place && place[n].slot == Slot(n.sql, count)
  }

  lemma {:induction false} SlottedAt(count: nat, nodes: set<Entry>, place: map<Entry, Place>, e: Entry)
    requires Slotted(count, nodes, place) && e in nodes
    ensures count > 0 && e in place && place[e].slot == Slot(e.sql, count)
  {
  }

  lemma {:induction false} SlottedFewer(count: nat, nodes: set<Entry>, fewer: set<Entry>, place: map<Entry, Place>)
    requires Slotted(count, nodes, place) && fewer <= nodes
    ensures Slotted(count, fewer, place)
  {
  }

  lemma {:induction false} SlottedInsert(
    count: nat, nodes: set<Entry>, place: map<Entry, Place>, e: Entry, rank: nat)
    requires Slotted(count, nodes, place) && count > 0
    ensures Slotted(count, nodes + {e}, place[e := Place(Slot(e.sql, count), rank)])
  {
    hide Slot;
  }

  lemma {:induction false} ChainedInsert(
    heads: seq<Entry?>, nodes: set<Entry>, next: map<Entry, Entry?>, place: map<Entry, Place>, clock: nat,
    e: Entry, idx: nat)
    requires Chained(heads, nodes, next, place, clock) && idx < |heads| && forall n :: n in nodes ==> n.sql != e.sql
    ensures Chained(heads[idx := e], nodes + {e}, next[e := heads[idx]], place[e := Place(idx, clock)], clock + 1)
  {
    FollowedInsert(heads, nodes, next, place, clock, e, idx);
    hide Followed;
  }

  lemma {:induction false} FollowedInsert(
    heads: seq<Entry?>, nodes: set<Entry>, next: map<Entry, Entry?>, place: map<Entry, Place>, clock: nat,
    e: Entry, idx: nat)
    requires Chained(heads, nodes, next, place, clock) && idx < |heads| && e !in nodes
    ensures Followed(nodes + {e}, next[e := heads[idx]], place[e := Place(idx, clock)])
  {
  }

  lemma {:induction false} ChainedUnlinkHead(
    heads: seq<Entry?>, nodes: set<Entry>, next: map<Entry, Entry?>, place: map<Entry, Place>, clock: nat,
    e: Entry, idx: nat)
    requires Chained(heads, nodes, next, place, clock) && idx < |heads| && heads[idx] == e
    ensures Chained(heads[idx := next[e]], nodes - {e}, next, place, clock)
  {
  }

  lemma {:induction false} ChainedUnlinkInner(
    heads: seq<Entry?>, nodes: set<Entry>, next: map<Entry, Entry?>, place: map<Entry, Place>, clock: nat,
    e: Entry, prev: Entry)
    requires Chained(heads, nodes, next, place, clock) && prev in nodes && next[prev] == e
    requires heads[place[e].slot] != e
    ensures Chained(heads, nodes - {e}, next[prev := next[e]], place, clock)
  {
    FollowedUnlink(nodes, next, place, e, prev);
    hide Followed;
  }

  lemma {:induction false} FollowedUnlink(
    nodes: set<Entry>, next: map<Entry, Entry?>, place: map<Entry, Place>, e: Entry, prev: Entry)
    requires forall n :: n in nodes ==> n in place
    requires forall n, m :: n in nodes && m in nodes && n != m ==> place[n].rank != place[m].rank
    requires Followed(nodes, next, place) && prev in nodes && next[prev] == e
    ensures Followed(nodes - {e}, next[prev := next[e]], place)
  {
    var next' := next[prev := next[e]];
    assert e in nodes;
    assert forall n {:trigger next'[n]} :: n in nodes && n != prev ==> next'[n] == next[n] && next[n] != e;
  }

  class StmtCache {
    var capacity: nat
    var size: nat
    var lruHead: Entry?
    var lruTail: Entry?
    var buckets: array<Entry?>

    ghost var contents: seq<Cached>      // the abstract value: keyed statements, most recent first
    ghost var order: seq<Entry>          // the recency list, most recent first
    ghost var nodes: set<Entry>          // every entry on some bucket chain
    ghost var place: map<Entry, Place>   // where it is chained
    ghost var next: map<Entry, Entry?>   // its successor on the chain
    ghost var clock: nat               // above every rank in use

    ghost predicate ListOk()
      reads this`lruHead, this`lruTail, this`order, order`lruPrev, order`lruNext
    {
      && lruHead == At(order, 0)
      && lruTail == At(order, |order| - 1)
      && Linked(order)
      && Distinct(order)
    }

    ghost predicate ChainsOk()
      reads this`buckets, this`nodes, this`next, this`place, this`clock, buckets, nodes`bucketNext
    {
      && Chained(buckets[..], nodes, next, place, clock)
      && forall n {:trigger n.bucketNext} :: n in nodes ==> n.bucketNext == next[n]
    }

    // ---- Recency list --------------------------------------------------------------------

    /** The pointer surgery of an unlink: the neighbours of `e` now name each other. */
    method LruBypass(e: Entry, ghost k: nat)
      requires ListOk() && k < |order| && order[k] == e
      modifies this`lruHead, this`lruTail, order`lruPrev, order`lruNext
      ensures LinkedAround(order, k)
      ensures lruHead == (if k == 0 then At(order, 1) else order[0])
      ensures lruTail == (if k == |order| - 1 then At(order, |order| - 2) else order[|order| - 1])
      ensures e.lruPrev == null && e.lruNext == null
    {
      if e.lruPrev != null { e.lruPrev.lruNext := e.lruNext; } else { lruHead := e.lruNext; }
      if e.lruNext != null { e.lruNext.lruPrev := e.lruPrev; } else { lruTail := e.lruPrev; }
      e.lruPrev, e.lruNext := null, null;
    }

    method LruUnlink(e: Entry, ghost k: nat)
      requires ListOk() && k < |order| && order[k] == e
      modifies this`lruHead, this`lruTail, this`order, order`lruPrev, order`lruNext
      ensures ListOk() && order == Remove(old(order), k)
      ensures e.lruPrev == null && e.lruNext == null
    {
      hide Linked, LinkedAround, Remove;
      LruBypass(e, k);
      LinkedRemove(order, k);
      RemoveEnds(order, k);
      order := Remove(order, k);
    }

    method LruPushFront(e: Entry)
      requires ListOk() && e !in order
      modifies this`lruHead, this`lruTail, this`order
      modifies e`lruPrev, e`lruNext, order`lruPrev
      ensures ListOk() && order == [e] + old(order)
    {
      e.lruPrev, e.lruNext := null, lruHead;
      if lruHead != null { lruHead.lruPrev := e; }
      lruHead := e;
      if lruTail == null { lruTail := e; }
      order := [e] + order;
    }

    method LruPromote(e: Entry, ghost k: nat)
      requires ListOk() && k < |order| && order[k] == e
      modifies this`lruHead, this`lruTail, this`order, order`lruPrev, order`lruNext
      ensures ListOk() && order == ToFront(old(order), k)
    {
      if lruHead == e {
        assert k == 0;
        assert ToFront(order, 0) == order;
        return;
      }
      LruUnlink(e, k);
      LruPushFront(e);
    }

    // ---- Bucket chains -------------------------------------------------------------------

    method BucketIndex(sql: string) returns (idx: nat)
      requires buckets.Length > 0
      ensures idx < buckets.Length && idx == Slot(sql, buckets.Length)
    {
      var h := HashSql(sql);
      idx := BitAnd(h, buckets.Length - 1);
    }

    method BucketFind(idx: nat, sql: string) returns (e: Entry?)
      requires ChainsOk() && idx < buckets.Length
      requires forall n :: n in nodes && n.sql == sql ==> place[n].slot == idx
      ensures e != null ==> e in nodes && e.sql == sql
      ensures e == null ==> forall n :: n in nodes ==> n.sql != sql
    {
      e := buckets[idx];
      assert e == buckets[..][idx];
      while e != null
        invariant e != null ==> e in nodes && place[e].slot == idx
        invariant forall n :: n in nodes && n.sql == sql ==> e != null && place[n].rank <= place[e].rank
        decreases if e == null then 0 else place[e].rank + 1
      {
        if e.sql == sql { return; }
        e := e.bucketNext;
      }
    }

    method BucketInsert(e: Entry, idx: nat)
      requires ChainsOk() && idx < buckets.Length && forall n :: n in nodes ==> n.sql != e.sql
      modifies this`nodes, this`place, this`next, this`clock, buckets, e`bucketNext
      ensures ChainsOk() && nodes == old(nodes) + {e} && place == old(place)[e := Place(idx, old(clock))]
    {
      hide Placed, Headed, Followed;
      ChainedInsert(buckets[..], nodes, next, place, clock, e, idx);
      ghost var heads := buckets[..];
      next := next[e := buckets[idx]];
      e.bucketNext := buckets[idx];
      buckets[idx] := e;
      nodes, place, clock := nodes + {e}, place[e := Place(idx, clock)], clock + 1;
      assert buckets[..] == heads[idx := e];
    }

    /** The predecessor of `e` on its chain, found by walking from the bucket head. */
    method ChainPrev(idx: nat, e: Entry) returns (prev: Entry?)
      requires ChainsOk() && e in nodes && idx == place[e].slot
      ensures prev == null ==> buckets[idx] == e
      ensures prev != null ==> prev in nodes && prev.bucketNext == e && buckets[idx] != e
    {
      prev := null;
      var cur := buckets[idx];
      assert cur == buckets[..][idx];
      while cur != e
        invariant cur != null && cur in nodes && place[cur].slot == idx && place[e].rank <= place[cur].rank
        invariant prev == null ==> cur == buckets[idx]
        invariant prev != null ==>
                    prev in nodes && prev.bucketNext == cur && place[cur].rank < place[buckets[idx]].rank
        decreases place[cur].rank
      {
        prev, cur := cur, cur.bucketNext;
      }
    }

    method BucketUnlink(e: Entry, idx: nat)
      requires ChainsOk() && e in nodes && idx == place[e].slot
      modifies this`nodes, this`next, buckets, nodes`bucketNext
      ensures ChainsOk() && nodes == old(nodes) - {e}
    {
      var prev := ChainPrev(idx, e);
      ghost var heads := buckets[..];
      if prev == null {
        ChainedUnlinkHead(heads, nodes, next, place, clock, e, idx);
        buckets[idx] := e.bucketNext;
        assert buckets[..] == heads[idx := next[e]];
      } else {
        ChainedUnlinkInner(heads, nodes, next, place, clock, e, prev);
        next := next[prev := e.bucketNext];
        prev.bucketNext := e.bucketNext;
      }
      e.bucketNext := null;
      nodes := nodes - {e};
    }

    // ---- The cache as a whole ------------------------------------------------------------

    ghost predicate Valid()
      reads this, buckets, order, nodes
    {
      && ListOk() && ChainsOk() && Slotted(buckets.Length, nodes, place)
      && SameEntries(nodes, order) && Lists(order, contents)
      && size == |order| == |contents| <= capacity
      && buckets.Length == BucketCount(capacity)
    }

    /** Every cached statement is a live statement of `drv`, held once. */
    ghost predicate Holds(drv: Driver)
      reads this`contents, drv`stmts
    {
      Owned(contents, drv.stmts.Keys)
    }

    lemma {:induction false} ContentsWellFormed()
      requires Valid()
      ensures WellFormed(capacity, contents)
    {
      hide Slotted, Headed, Followed, Linked;
      forall i, j | 0 <= i < j < |order| ensures Keys(contents)[i] != Keys(contents)[j] {
        assert order[i] in nodes && order[j] in nodes;
      }
    }

    /** Where the pointer structure found an entry is where the specification finds it. */
    lemma {:induction false} FoundAt(e: Entry) returns (k: nat)
      requires Valid() && e in nodes
      ensures k < |order| && order[k] == e && Find(contents, e.sql) == k
      ensures contents[k] == Cached(e.sql, e.stmt)
    {
      hide ListOk, ChainsOk, Slotted;
      k :| 0 <= k < |order| && order[k] == e;
      ContentsWellFormed();
      FindUnique(contents, e.sql, k);
    }

    lemma {:induction false} NotFound(sql: string)
      requires SameEntries(nodes, order) && Lists(order, contents) && forall n :: n in nodes ==> n.sql != sql
      ensures Find(contents, sql) == -1
    {
    }

    constructor (capacity: nat)
      requires 2 * capacity <= SIZE_MAX_PLUS_ONE / 2
      ensures Valid() && contents == [] && this.capacity == capacity && fresh(buckets) && nodes == {}
    {
      this.capacity, size, lruHead, lruTail := capacity, 0, null, null;
      contents, order, nodes, next, place, clock := [], [], {}, map[], map[], 0;
      buckets := new Entry?[BucketCount(capacity)](_ => null);
    }

    /** The bucket of `sql` and the entry found there. */
    method Lookup(sql: string) returns (idx: nat, e: Entry?)
      requires Valid() && capacity > 0
      ensures idx < buckets.Length && idx == Slot(sql, buckets.Length)
      ensures e != null ==> e in nodes && e.sql == sql
      ensures e == null ==> forall n :: n in nodes ==> n.sql != sql
    {
      hide ListOk, Slot, Chained;
      idx := BucketIndex(sql);
      e := BucketFind(idx, sql);
    }

    /** Makes an entry the most recently used one. */
    method Promote(e: Entry, ghost k: nat)
      requires Valid() && k < |order| && order[k] == e
      modifies this`lruHead, this`lruTail, this`order, this`contents, nodes`lruPrev, nodes`lruNext
      ensures Valid() && contents == ToFront(old(contents), k)
    {
      hide ListOk, ChainsOk, Slotted, SameEntries, Lists, ToFront, BucketCount;
      ListedIsChained(nodes, order);
      SameEntriesToFront(nodes, order, k);
      ListsToFront(order, contents, k);
      LruPromote(e, k);
      contents := ToFront(contents, k);
    }

    method Get(sql: string) returns (status: Status, stmt: Option<StmtId>)
      requires Valid()
      modifies this`lruHead, this`lruTail, this`order, this`contents, nodes`lruPrev, nodes`lruNext
      ensures Valid()
      ensures (stmt, contents) == LruSpec.Get(old(contents), sql)
      ensures status == if stmt.Some? then Ok else Status.NotFound
    {
      hide ListOk, ChainsOk, Slotted, Slot, SameEntries, Lists, ToFront, BucketCount;
      if capacity == 0 || size == 0 { return Status.NotFound, None; }
      var idx, e := Lookup(sql);
      if e == null {
        NotFound(sql);
        return Status.NotFound, None;
      }
      ghost var k := FoundAt(e);
      Promote(e, k);
      return Ok, Some(e.stmt);
    }

    lemma {:induction false} TailIsLast()
      requires ListOk()
      ensures lruHead == At(order, 0) && lruTail == At(order, |order| - 1) && Distinct(order)
    {
    }

    /** Takes an entry off the list and out of its chain. */
    method Detach(e: Entry, ghost k: nat)
      requires ListOk() && ChainsOk() && SameEntries(nodes, order)
      requires k < |order| && order[k] == e && e in nodes && buckets.Length > 0
      requires place[e].slot == Slot(e.sql, buckets.Length)
      modifies this`lruHead, this`lruTail, this`order, this`nodes, this`next, buckets
      modifies nodes`lruPrev, nodes`lruNext, nodes`bucketNext
      ensures ListOk() && ChainsOk() && order == Remove(old(order), k) && nodes == old(nodes) - {e}
    {
      hide ListOk, ChainsOk, SameEntries, Slot;
      ListedIsChained(nodes, order);
      LruUnlink(e, k);
      var idx := BucketIndex(e.sql);
      BucketUnlink(e, idx);
    }

    /** Takes the least recently used entry out of the cache. */
    method DropTail() returns (victim: Entry?)
      requires Valid()
      modifies this`size, this`lruHead, this`lruTail, this`order, this`contents, this`nodes, this`next, buckets
      modifies nodes`lruPrev, nodes`lruNext, nodes`bucketNext
      ensures Valid() && victim == At(old(order), |old(order)| - 1) && nodes <= old(nodes)
      ensures order == (if victim == null then old(order) else old(order)[..|old(order)| - 1])
      ensures contents == old(contents)[..|order|]
    {
      hide ListOk, ChainsOk, Slotted, SameEntries, Slot, BucketCount, Lists, Distinct;
      TailIsLast();
      victim := lruTail;
      if victim == null { return; }
      ghost var n := |order| - 1;
      ListedIsChained(nodes, order);
      SlottedAt(buckets.Length, nodes, place, victim);
      SlottedFewer(buckets.Length, nodes, nodes - {victim}, place);
      SameEntriesDrop(nodes, order);
      ListsPrefix(order, contents, n);
      assert Remove(order, n) == order[..n];
      Detach(victim, n);
      size, contents := size - 1, contents[..n];
    }

    /** Evicts and finalizes the least recently used entry, if there is one. */
    method EvictTail(drv: Driver)
      requires Valid() && Holds(drv)
      modifies this`size, this`lruHead, this`lruTail, this`order, this`contents, this`nodes, this`next, buckets
      modifies nodes`lruPrev, nodes`lruNext, nodes`bucketNext, drv`stmts, drv`finalized
      ensures Valid() && Holds(drv) && nodes <= old(nodes)
      ensures old(order) == [] ==>
              order == [] && contents == old(contents) && drv.stmts == old(drv.stmts)
              && drv.finalized == old(drv.finalized)
      ensures old(order) != [] ==>
                && order == old(order)[..|old(order)| - 1] && contents == old(contents)[..|order|]
                && drv.finalized == old(drv.finalized) + [old(contents)[|order|].stmt]
                && drv.stmts == old(drv.stmts) - {old(contents)[|order|].stmt}
    {
      hide ListOk, ChainsOk, Slotted, SameEntries, Owned, BucketCount;
      ghost var was, live := contents, drv.stmts.Keys;
      var victim := DropTail();
      if victim == null { return; }
      OwnedDropLast(was, live);
      drv.Finalize(victim.stmt);
      assert drv.stmts.Keys == live - {victim.stmt};
    }

    /** Chains an entry in bucket `idx` and puts it at the front of the list. */
    method Attach(e: Entry, idx: nat)
      requires ListOk() && ChainsOk() && SameEntries(nodes, order) && idx < buckets.Length
      requires forall n :: n in nodes ==> n.sql != e.sql
      modifies this`lruHead, this`lruTail, this`order, this`nodes, this`next, this`place, this`clock
      modifies buckets, e`bucketNext, e`lruPrev, e`lruNext, nodes`lruPrev
      ensures ListOk() && ChainsOk() && order == [e] + old(order) && nodes == old(nodes) + {e}
      ensures place == old(place)[e := Place(idx, old(clock))]
    {
      hide ListOk, ChainsOk, SameEntries;
      ListedIsChained(nodes, order);
      BucketInsert(e, idx);
      LruPushFront(e);
    }

    /** Stores a new entry for an absent key. */
    method Insert(sql: string, stmt: StmtId, idx: nat) returns (e: Entry)
      requires Valid() && |order| < capacity && idx < buckets.Length && idx == Slot(sql, buckets.Length)
      requires forall n :: n in nodes ==> n.sql != sql
      modifies this`size, this`lruHead, this`lruTail, this`order, this`contents, this`nodes, this`next, this`place
      modifies this`clock
      modifies buckets, nodes`lruPrev
      ensures Valid() && fresh(e) && nodes == old(nodes) + {e}
      ensures contents == [Cached(sql, stmt)] + old(contents)
    {
      hide ListOk, ChainsOk, SameEntries, Slotted, Slot, BucketCount, Lists;
      e := new Entry(sql, stmt);
      SlottedInsert(buckets.Length, nodes, place, e, clock);
      SameEntriesCons(nodes, order, e);
      ListsCons(e, order, contents);
      Attach(e, idx);
      size, contents := size + 1, [Cached(sql, stmt)] + contents;
    }

    method SetStmt(e: Entry, stmt: StmtId, ghost k: nat)
      requires Valid() && k < |order| && order[k] == e
      modifies this`contents, e`stmt
      ensures Valid() && contents == old(contents)[k := Cached(e.sql, stmt)]
    {
      hide ListOk, ChainsOk, Slotted, SameEntries, BucketCount;
      TailIsLast();
      e.stmt := stmt;
      contents := contents[k := Cached(e.sql, stmt)];
    }

    /** Swaps a new statement into an existing entry, which becomes the most recent one. */
    method Replace(e: Entry, stmt: StmtId, drv: Driver)
      requires Valid() && Holds(drv) && stmt in drv.stmts && stmt !in Stmts(contents) && e in nodes
      modifies this`lruHead, this`lruTail, this`order, this`contents, nodes`lruPrev, nodes`lruNext, nodes`stmt
      modifies drv`stmts, drv`finalized
      ensures Valid() && Holds(drv)
      ensures var k := Find(old(contents), e.sql);
              && k >= 0
              && contents == ToFront(old(contents)[k := Cached(e.sql, stmt)], k)
              && drv.finalized == old(drv.finalized) + [old(contents)[k].stmt]
              && drv.stmts == old(drv.stmts) - {old(contents)[k].stmt}
    {
      hide ListOk, ChainsOk, Slotted, SameEntries, Lists, BucketCount, Owned, Stmts, ToFront;
      ghost var was, live := contents, drv.stmts.Keys;
      ghost var k := FoundAt(e);
      OwnedReplace(was, live, k, Cached(e.sql, stmt));
      OwnedAt(was, live, k);
      drv.Finalize(e.stmt);
      assert drv.stmts.Keys == live - {was[k].stmt};
      SetStmt(e, stmt, k);
      Promote(e, k);
    }

    /** Insertion of an absent key: make room, then store the statement or give it up. */
    method PutNew(sql: string, stmt: StmtId, idx: nat, drv: Driver, allocOk: bool) returns (status: Status)
      requires Valid() && Holds(drv) && stmt in drv.stmts && stmt !in Stmts(contents)
      requires capacity > 0 && idx < buckets.Length && idx == Slot(sql, buckets.Length)
      requires forall n :: n in nodes ==> n.sql != sql
      modifies this`size, this`lruHead, this`lruTail, this`order, this`contents, this`nodes, this`next, this`place
      modifies this`clock
      modifies buckets, nodes`lruPrev, nodes`lruNext, nodes`bucketNext, drv`stmts, drv`finalized
      ensures Valid() && Holds(drv)
      ensures fresh(nodes - old(nodes))
      ensures var was := old(contents);
              var n := if |was| >= capacity then |was| - 1 else |was|;
              && contents == (if allocOk then [Cached(sql, stmt)] else []) + was[..n]
              && status == (if allocOk then Ok else NoMemory)
              && var gone := Stmts(was[n..]) + (if allocOk then [] else [stmt]);
              && drv.finalized == old(drv.finalized) + gone
              && drv.stmts == old(drv.stmts) - ToSet(gone)
    {
      hide ListOk, ChainsOk, Slotted, SameEntries, Slot, Lists, BucketCount, Owned;
      ghost var was := contents;
      if size >= capacity {
        EvictTail(drv);
      }
      ghost var kept, live := contents, drv.stmts.Keys;
      StmtsPrefix(was, |kept|);
      assert stmt !in Stmts(kept);
      if !allocOk {
        OwnedForget(kept, live, stmt);
        drv.Finalize(stmt);
        assert drv.stmts.Keys == live - {stmt};
        return NoMemory;
      }
      OwnedInsert(kept, live, Cached(sql, stmt));
      var e := Insert(sql, stmt, idx);
      return Ok;
    }

    method Put(sql: string, stmt: StmtId, drv: Driver, allocOk: bool) returns (status: Status)
      requires Valid() && Holds(drv) && stmt in drv.stmts && stmt !in Stmts(contents)
      modifies this, buckets, nodes, drv`stmts, drv`finalized
      ensures Valid() && Holds(drv) && capacity == old(capacity) && buckets == old(buckets)
      ensures fresh(nodes - old(nodes))
      ensures var p := LruSpec.Put(capacity, old(contents), sql, stmt, allocOk);
              && status == p.status && contents == p.entries
              && drv.finalized == old(drv.finalized) + p.finalized
              && drv.stmts == old(drv.stmts) - ToSet(p.finalized)
    {
      hide ListOk, ChainsOk, Slotted, SameEntries, Slot, Lists, BucketCount, Owned, Stmts, ToFront, ToSet, LruSpec.Put;
      ghost var was, live := contents, drv.stmts.Keys;
      if capacity == 0 {
        OwnedForget(was, live, stmt);
        PutDisabled(was, sql, stmt, allocOk);
        drv.Finalize(stmt);
        assert drv.stmts.Keys == live - {stmt};
        return Ok;
      }
      var idx, existing := Lookup(sql);
      if existing != null {
        ghost var k := FoundAt(existing);
        PutReplaces(capacity, was, sql, stmt, allocOk);
        Replace(existing, stmt, drv);
        return Ok;
      }
      NotFound(sql);
      PutInserts(capacity, was, sql, stmt, allocOk, if |was| >= capacity then |was| - 1 else |was|);
      status := PutNew(sql, stmt, idx, drv, allocOk);
    }

    /** Evicts from the tail until at most `limit` entries are left. */
    method Shrink(limit: nat, drv: Driver)
      requires Valid() && Holds(drv)
      modifies this`size, this`lruHead, this`lruTail, this`order, this`contents, this`nodes, this`next, buckets
      modifies nodes`lruPrev, nodes`lruNext, nodes`bucketNext, drv`stmts, drv`finalized
      ensures Valid() && Holds(drv) && nodes <= old(nodes) && contents == Truncate(limit, old(contents))
      ensures drv.finalized == old(drv.finalized) + Surplus(limit, old(contents))
      ensures drv.stmts == old(drv.stmts) - ToSet(Surplus(limit, old(contents)))
    {
      hide ListOk, ChainsOk, Slotted, SameEntries, Lists, BucketCount, Owned, Surplus, ToSet;
      ghost var was := contents;
      SurplusNone(was);
      while size > limit
        invariant Valid() && Holds(drv) && nodes <= old(nodes)
        invariant size <= |was| && contents == was[..size] && (size >= limit || contents == was)
        invariant drv.finalized == old(drv.finalized) + Surplus(size, was)
        invariant drv.stmts == old(drv.stmts) - ToSet(Surplus(size, was))
      {
        SurplusStep(size - 1, was);
        EvictTail(drv);
      }
      if |was| < limit { SurplusFits(limit, was); }
    }

    /** Empties every chain link, walking the recency list. */
    method ClearLinks()
      requires ListOk() && SameEntries(nodes, order)
      modifies nodes`bucketNext
    {
      var e := lruHead;
      ghost var i := 0;
      while e != null
        invariant 0 <= i <= |order| && e == At(order, i)
        decreases |order| - i
      {
        e.bucketNext := null;
        e, i := e.lruNext, i + 1;
      }
    }

    /** Chains every entry of the recency list into the fresh, empty bucket table. */
    method ChainAll(ghost all: set<Entry>)
      requires ListOk() && SameEntries(all, order) && nodes == {} && KeysApart(all)
      requires buckets.Length > 0 && forall b :: 0 <= b < buckets.Length ==> buckets[b] == null
      modifies this`nodes, this`next, this`place, this`clock, buckets, all`bucketNext
      ensures ChainsOk() && nodes == all && Slotted(buckets.Length, nodes, place)
    {
      hide Slot, Slotted, Linked, KeysApart, Distinct, SameEntries, ChainsOk;
      var e := lruHead;
      ghost var i := 0;
      EmptyChains();
      while e != null
        invariant 0 <= i <= |order| && e == At(order, i)
        invariant ChainsOk() && Slotted(buckets.Length, nodes, place) && nodes == Elements(order[..i])
        decreases |order| - i
      {
        NextUnchained(all, order, i);
        NextInList(i);
        var idx := BucketIndex(e.sql);
        SlottedInsert(buckets.Length, nodes, place, e, clock);
        BucketInsert(e, idx);
        e, i := e.lruNext, i + 1;
      }
      assert order[..i] == order;
      ElementsAll(all, order);
    }

    lemma {:induction false} EmptyChains()
      requires nodes == {} && forall b :: 0 <= b < buckets.Length ==> buckets[b] == null
      ensures ChainsOk() && Slotted(buckets.Length, nodes, place)
    {
    }

    lemma {:induction false} NextInList(i: nat)
      requires ListOk() && i < |order|
      ensures order[i].lruNext == At(order, i + 1)
    {
    }

    /** Replaces the hash table by one of `want` buckets, from the recency list. */
    method Rehash(want: nat)
      requires ListOk() && SameEntries(nodes, order) && KeysApart(nodes) && want > 0
      modifies this`buckets, this`nodes, this`next, this`place, this`clock, nodes`bucketNext
      ensures ChainsOk() && nodes == old(nodes)
      ensures fresh(buckets) && buckets.Length == want && Slotted(want, nodes, place)
    {
      hide ListOk, SameEntries, KeysApart, Slotted, ChainsOk;
      ClearLinks();
      ghost var all := nodes;
      buckets, nodes := new Entry?[want](_ => null), {};
      ChainAll(all);
    }

    lemma {:induction false} ChainedKeysApart()
      requires ChainsOk()
      ensures KeysApart(nodes)
    {
    }

    /** Drops the table of an empty cache. */
    method Disable()
      requires Valid() && contents == []
      modifies this`buckets, this`capacity
      ensures Valid() && capacity == 0 && fresh(buckets)
    {
      buckets := new Entry?[0];
      capacity := 0;
    }

    method Rebuild(newCapacity: nat, drv: Driver, allocOk: bool) returns (status: Status)
      requires Valid() && Holds(drv) && 2 * newCapacity <= SIZE_MAX_PLUS_ONE / 2
      modifies this, buckets, nodes, drv`stmts, drv`finalized
      ensures Valid() && Holds(drv) && nodes <= old(nodes) && (buckets == old(buckets) || fresh(buckets))
      ensures contents == Truncate(newCapacity, old(contents))
      ensures contents == old(contents) <==> |old(contents)| <= newCapacity
      ensures drv.finalized == old(drv.finalized) + Surplus(newCapacity, old(contents))
      ensures drv.stmts == old(drv.stmts) - ToSet(Surplus(newCapacity, old(contents)))
      ensures status == Ok || status == NoMemory
      ensures status == NoMemory <==>
                !allocOk && newCapacity > 0 && BucketCount(newCapacity) != BucketCount(old(capacity))
      ensures capacity == if status == Ok then newCapacity else old(capacity)
    {
      hide ListOk, ChainsOk, Slotted, SameEntries, Lists, Owned, Surplus, ToSet, DoubleUntil, Pow2;
      Shrink(newCapacity, drv);
      if newCapacity == 0 {
        Disable();
        return Ok;
      }
      var want := Max(2 * newCapacity, MIN_BUCKETS);
      want := NextPow2AtLeast(want);
      if want != buckets.Length {
        if !allocOk { return NoMemory; }
        ChainedKeysApart();
        Rehash(want);
      }
      capacity := newCapacity;
      return Ok;
    }

    method Destroy(drv: Driver)
      requires Valid() && Holds(drv)
      modifies this, drv`stmts, drv`finalized
      ensures Valid() && contents == [] && capacity == 0 && fresh(buckets)
      ensures drv.finalized == old(drv.finalized) + Stmts(old(contents))
      ensures drv.stmts == old(drv.stmts) - ToSet(Stmts(old(contents)))
    {
      hide ListOk, ChainsOk, Slotted, SameEntries, BucketCount, Owned, ToSet, Stmts, Lists;
      FinalizeAll(drv);
      Reset();
    }

    method Reset()
      modifies this
      ensures Valid() && contents == [] && capacity == 0 && fresh(buckets)
    {
      hide BucketCount, Chained, Slotted, SameEntries, Lists, Linked, Distinct;
      size, lruHead, lruTail, contents, order, nodes := 0, null, null, [], [], {};
      buckets, capacity := new Entry?[0], 0;
      NoneChained(next, place, clock);
      assert buckets[..] == [];
    }

    /** Walks the recency list and finalizes every statement on it. */
    method FinalizeAll(drv: Driver)
      requires Valid() && Holds(drv)
      modifies drv`stmts, drv`finalized
      ensures drv.finalized == old(drv.finalized) + Stmts(contents)
      ensures drv.stmts == old(drv.stmts) - ToSet(Stmts(contents))
    {
      hide ListOk, ChainsOk, Slotted, SameEntries, BucketCount, Owned, ToSet;
      ghost var live := drv.stmts.Keys;
      TailIsLast();
      var e := lruHead;
      ghost var i := 0;
      assert Stmts(contents[..0]) == [] && ToSet([]) == {} by { SurplusNone(contents); }
      while e != null
        invariant 0 <= i <= |order| && e == At(order, i)
        invariant drv.finalized == old(drv.finalized) + Stmts(contents[..i])
        invariant drv.stmts == old(drv.stmts) - ToSet(Stmts(contents[..i]))
        decreases |order| - i
      {
        OwnedAfter(contents, live, i);
        NextInList(i);
        drv.Finalize(e.stmt);
        e, i := e.lruNext, i + 1;
      }
      assert contents[..i] == contents;
    }
  }

  /**
   * A failed rebuild does not preserve the cache: with two statements cached under a capacity of 64, shrinking
   * to 1 without memory for the new bucket table reports NO_MEMORY and has lost one of them.
   */
  method FailedRebuildEvicts(drv: Driver, a: StmtId, b: StmtId) returns (cache: StmtCache, status: Status)
    requires a in drv.stmts && b in drv.stmts && a != b
    modifies drv`stmts, drv`finalized
    ensures status == NoMemory && cache.capacity == 64 && cache.contents == [Cached("b", b)]
    ensures drv.finalized == old(drv.finalized) + [a]
  {
    hide StmtCache.Valid, LruSpec.Put, BucketCount, Surplus, Truncate;
    cache := new StmtCache(64);
    OwnedNone(drv.stmts.Keys);
    PutFresh(64, [], "a", a);
    status := cache.Put("a", a, drv, true);
    assert cache.contents == [Cached("a", a)] && drv.finalized == old(drv.finalized);
    PutFresh(64, [Cached("a", a)], "b", b);
    status := cache.Put("b", b, drv, true);
    assert drv.finalized == old(drv.finalized);
    DropsOne(a, b);
    BucketCounts();
    status := cache.Rebuild(1, drv, false);
  }

  lemma {:induction false} OwnedNone(live: set<StmtId>)
    ensures Owned([], live)
  {
  }

  lemma {:induction false} PutFresh(capacity: nat, entries: seq<Cached>, sql: string, stmt: StmtId)
    requires |entries| < capacity && forall i :: 0 <= i < |entries| ==> entries[i].sql != sql
    ensures LruSpec.Put(capacity, entries, sql, stmt, true) == Effect(Ok, [Cached(sql, stmt)] + entries, [])
    ensures ToSet([]) == {}
  {
  }

  lemma {:induction false} DropsOne(a: StmtId, b: StmtId)
    ensures Truncate(1, [Cached("b", b)] + [Cached("a", a)]) == [Cached("b", b)]
    ensures Surplus(1, [Cached("b", b)] + [Cached("a", a)]) == [a]
  {
    var entries := [Cached("b", b), Cached("a", a)];
    assert [Cached("b", b)] + [Cached("a", a)] == entries;
    assert Stmts(entries[1..]) == [a];
    assert Reverse([a]) == [a];
  }

  lemma {:induction false} BucketCounts()
    ensures BucketCount(64) == 128 && BucketCount(1) == 16
  {
    assert DoubleUntil(1, 16) == DoubleUntil(4, 16) == 16;
    assert DoubleUntil(1, 128) == DoubleUntil(4, 128) == DoubleUntil(16, 128) == DoubleUntil(64, 128) == 128;
  }
}
