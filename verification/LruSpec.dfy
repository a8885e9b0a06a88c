/**
 * The statement cache on values: a most-recent-first sequence of keyed statements.
 * The pointer structure of `StmtCache` refines these functions; the theorems about
 * eviction order, ownership and whole traces are proved here.
 */
module LruSpec {
  import opened Core

  type StmtId = nat

  datatype Cached = Cached(sql: string, stmt: StmtId)

  /** What a cache operation leaves behind: its status, the entries, the statements finalized in order. */
  datatype Effect = Effect(status: Status, entries: seq<Cached>, finalized: seq<StmtId>)

  function Keys(entries: seq<Cached>): (ks: seq<string>)
    ensures |ks| == |entries| && forall i :: 0 <= i < |ks| ==> ks[i] == entries[i].sql
  {
    seq(|entries|, i requires 0 <= i < |entries| => entries[i].sql)
  }

  function Stmts(entries: seq<Cached>): (ss: seq<StmtId>)
    ensures |ss| == |entries| && forall i :: 0 <= i < |ss| ==> ss[i] == entries[i].stmt
  {
    seq(|entries|, i requires 0 <= i < |entries| => entries[i].stmt)
  }

  lemma {:induction false} StmtsPrefix(entries: seq<Cached>, n: nat)
    requires n <= |entries|
    ensures Stmts(entries[..n]) == Stmts(entries)[..n]
  {
  }

  /** Position of the entry for `sql`, or -1; well-formed entries have at most one. */
  ghost function Find(entries: seq<Cached>, sql: string): (i: int)
    ensures -1 <= i < |entries|
    ensures i >= 0 ==> entries[i].sql == sql
    ensures i < 0 ==> forall j :: 0 <= j < |entries| ==> entries[j].sql != sql
  {
    if i :| 0 <= i < |entries| && entries[i].sql == sql then i else -1
  }

  lemma {:induction false} FindUnique(entries: seq<Cached>, sql: string, i: nat)
    requires i < |entries| && entries[i].sql == sql
    requires Distinct(Keys(entries))
    ensures Find(entries, sql) == i
  {
    var k := Find(entries, sql);
    assert Keys(entries)[k] == Keys(entries)[i];
  }

  function Remove<T>(s: seq<T>, i: nat): (r: seq<T>)
    requires i < |s|
    ensures |r| == |s| - 1
  {
    s[..i] + s[i + 1..]
  }

  function ToFront<T>(s: seq<T>, i: nat): (r: seq<T>)
    requires i < |s|
    ensures |r| == |s|
  {
    [s[i]] + Remove(s, i)
  }

  lemma {:induction false} ToFrontSame<T>(s: seq<T>, i: nat)
    requires i < |s|
    ensures forall x :: x in s <==> x in ToFront(s, i)
  {
    assert s == s[..i] + [s[i]] + s[i + 1..];
  }

  /** Cache lookup: a hit moves the entry to the front. */
  ghost function Get(entries: seq<Cached>, sql: string): (Option<StmtId>, seq<Cached>)
  {
    var i := Find(entries, sql);
    if i < 0 then (None, entries) else (Some(entries[i].stmt), ToFront(entries, i))
  }

  /** Cache insertion: disabled, replacing, evicting and out-of-memory outcomes. */
  ghost function Put(capacity: nat, entries: seq<Cached>, sql: string, stmt: StmtId, allocOk: bool): Effect
  {
    var i := Find(entries, sql);
    if capacity == 0 then Effect(Ok, entries, [stmt])
    else if i >= 0 then Effect(Ok, ToFront(entries[i := Cached(sql, stmt)], i), [entries[i].stmt])
    else
      var full := |entries| >= capacity;
      var kept := if full then entries[..|entries| - 1] else entries;
      var evicted := if full then [entries[|entries| - 1].stmt] else [];
      if allocOk then Effect(Ok, [Cached(sql, stmt)] + kept, evicted)
      else Effect(NoMemory, kept, evicted + [stmt])
  }

  function ToSet(ids: seq<StmtId>): set<StmtId> {
    set s | s in ids
  }

  lemma {:induction false} PutDisabled(entries: seq<Cached>, sql: string, stmt: StmtId, allocOk: bool)
    ensures Put(0, entries, sql, stmt, allocOk) == Effect(Ok, entries, [stmt]) && ToSet([stmt]) == {stmt}
  {
  }

  lemma {:induction false} PutReplaces(capacity: nat, entries: seq<Cached>, sql: string, stmt: StmtId, allocOk: bool)
    requires capacity > 0 && Find(entries, sql) >= 0
    ensures var i := Find(entries, sql);
            && Put(capacity, entries, sql, stmt, allocOk)
               == Effect(Ok, ToFront(entries[i := Cached(sql, stmt)], i), [entries[i].stmt])
            && ToSet([entries[i].stmt]) == {entries[i].stmt}
  {
    hide ToFront;
  }

  /** Insertion of an absent key, by how many entries survive it. */
  lemma {:induction false} PutInserts(
    capacity: nat, entries: seq<Cached>, sql: string, stmt: StmtId, allocOk: bool, kept: nat)
    requires capacity > 0 && Find(entries, sql) < 0
    requires kept == if |entries| >= capacity then |entries| - 1 else |entries|
    ensures Put(capacity, entries, sql, stmt, allocOk) ==
            Effect(if allocOk then Ok else NoMemory,
                   (if allocOk then [Cached(sql, stmt)] else []) + entries[..kept],
                   Stmts(entries[kept..]) + if allocOk then [] else [stmt])
  {
    hide ToFront;
    if allocOk { assert Stmts(entries[kept..]) + [] == Stmts(entries[kept..]); }
    assert [] + entries[..kept] == entries[..kept];
  }

  function Reverse<T>(s: seq<T>): (r: seq<T>)
    ensures |r| == |s| && forall i :: 0 <= i < |s| ==> r[i] == s[|s| - 1 - i]
  {
    if s == [] then [] else Reverse(s[1..]) + [s[0]]
  }

  function Truncate<T>(n: nat, s: seq<T>): seq<T> {
    if |s| <= n then s else s[..n]
  }

  lemma {:induction false} NothingToDrop(capacity: nat, entries: seq<Cached>)
    requires |entries| <= capacity
    ensures Truncate(capacity, entries) == entries && Surplus(capacity, entries) == []
  {
  }

  /** The statements a shrink to `capacity` finalizes: the surplus, least recently used first. */
  function Surplus(capacity: nat, entries: seq<Cached>): seq<StmtId> {
    if |entries| <= capacity then [] else Reverse(Stmts(entries[capacity..]))
  }

  lemma {:induction false} SurplusStep(n: nat, entries: seq<Cached>)
    requires n < |entries|
    ensures Surplus(n, entries) == Surplus(n + 1, entries) + [entries[n].stmt]
    ensures ToSet(Surplus(n, entries)) == ToSet(Surplus(n + 1, entries)) + {entries[n].stmt}
  {
    var rest := Stmts(entries[n..]);
    assert rest[1..] == Stmts(entries[n + 1..]);
    assert n + 1 == |entries| ==> Reverse(rest[1..]) == [];
  }

  lemma {:induction false} SurplusNone(entries: seq<Cached>)
    ensures Surplus(|entries|, entries) == [] && ToSet([]) == {}
  {
  }

  lemma {:induction false} SurplusFits(n: nat, entries: seq<Cached>)
    requires |entries| <= n
    ensures Surplus(n, entries) == []
  {
  }

  /** Disjoint keys and a size within capacity: what every cache state satisfies. */
  ghost predicate WellFormed(capacity: nat, entries: seq<Cached>) {
    Distinct(Keys(entries)) && |entries| <= capacity
  }

  lemma {:induction false} PutWellFormed(capacity: nat, entries: seq<Cached>, sql: string, stmt: StmtId, allocOk: bool)
    requires WellFormed(capacity, entries)
    ensures WellFormed(capacity, Put(capacity, entries, sql, stmt, allocOk).entries)
  {
    var i := Find(entries, sql);
    if capacity > 0 && i >= 0 {
      var mid := entries[i := Cached(sql, stmt)];
      assert Keys(mid) == Keys(entries);
      ToFrontDistinct(mid, i);
    } else if capacity > 0 {
      InsertDistinct(Cached(sql, stmt), entries);
      InsertDistinct(Cached(sql, stmt), entries[..Min(|entries|, capacity - 1)]);
    }
  }

  lemma {:induction false} InsertDistinct(c: Cached, entries: seq<Cached>)
    requires Distinct(Keys(entries)) && forall j :: 0 <= j < |entries| ==> entries[j].sql != c.sql
    ensures Distinct(Keys([c] + entries))
  {
    assert Keys([c] + entries) == [c.sql] + Keys(entries);
  }

  lemma {:induction false} ToFrontDistinct(entries: seq<Cached>, i: nat)
    requires i < |entries| && Distinct(Keys(entries))
    ensures Distinct(Keys(ToFront(entries, i)))
  {
    assert Keys(ToFront(entries, i)) == ToFront(Keys(entries), i);
  }

  /** A successful insertion is found again at once, and the re-lookup changes nothing. */
  lemma {:induction false} PutThenGet(capacity: nat, entries: seq<Cached>, sql: string, stmt: StmtId)
    requires capacity > 0 && WellFormed(capacity, entries)
    ensures Get(Put(capacity, entries, sql, stmt, true).entries, sql)
         == (Some(stmt), Put(capacity, entries, sql, stmt, true).entries)
  {
    var after := Put(capacity, entries, sql, stmt, true).entries;
    PutWellFormed(capacity, entries, sql, stmt, true);
    FindUnique(after, sql, 0);
    assert ToFront(after, 0) == after;
  }

  /** Every cached statement is live, and held by one entry only. */
  ghost predicate Owned(entries: seq<Cached>, live: set<StmtId>) {
    Distinct(Stmts(entries)) && forall i :: 0 <= i < |entries| ==> entries[i].stmt in live
  }

  lemma {:induction false} OwnedDistinct(entries: seq<Cached>, live: set<StmtId>)
    requires Owned(entries, live)
    ensures Distinct(Stmts(entries))
  {
  }

  lemma {:induction false} OwnedDropLast(entries: seq<Cached>, live: set<StmtId>)
    requires Owned(entries, live) && entries != []
    ensures var n := |entries| - 1;
            entries[n].stmt in live && Owned(entries[..n], live - {entries[n].stmt})
  {
    var n := |entries| - 1;
    forall i | 0 <= i < n ensures entries[i].stmt != entries[n].stmt {
      assert Stmts(entries)[i] != Stmts(entries)[n];
    }
    assert Stmts(entries[..n]) == Stmts(entries)[..n];
  }

  lemma {:induction false} OwnedReplace(entries: seq<Cached>, live: set<StmtId>, i: nat, c: Cached)
    requires Owned(entries, live) && i < |entries| && c.stmt in live && c.stmt !in Stmts(entries)
    ensures Owned(ToFront(entries[i := c], i), live - {entries[i].stmt})
  {
    var after := ToFront(entries[i := c], i);
    var ss := Stmts(entries);
    assert forall j :: 0 <= j < |ss| && j != i ==> ss[j] != ss[i];
    assert Stmts(after) == [c.stmt] + Remove(ss, i);
    forall j | 0 <= j < |after| ensures after[j].stmt in live - {entries[i].stmt} {
      assert j > 0 ==> after[j] == entries[if j <= i then j - 1 else j];
      assert ss[i] in ss;
    }
  }

  lemma {:induction false} OwnedAt(entries: seq<Cached>, live: set<StmtId>, i: nat)
    requires Owned(entries, live) && i < |entries|
    ensures entries[i].stmt in live
  {
  }

  lemma {:induction false} OwnedInsert(entries: seq<Cached>, live: set<StmtId>, c: Cached)
    requires Owned(entries, live) && c.stmt in live && c.stmt !in Stmts(entries)
    ensures Owned([c] + entries, live)
  {
    assert Stmts([c] + entries) == [c.stmt] + Stmts(entries);
  }

  lemma {:induction false} OwnedForget(entries: seq<Cached>, live: set<StmtId>, stmt: StmtId)
    requires Owned(entries, live) && stmt !in Stmts(entries)
    ensures Owned(entries, live - {stmt})
  {
    forall i | 0 <= i < |entries| ensures entries[i].stmt != stmt {
      assert Stmts(entries)[i] in Stmts(entries);
    }
  }

  /** Finalizing a cache front to back: what is still owned after `i` statements, and the next one. */
  lemma {:induction false} OwnedAfter(entries: seq<Cached>, live: set<StmtId>, i: nat)
    requires Owned(entries, live) && i < |entries|
    ensures entries[i].stmt in live - ToSet(Stmts(entries[..i]))
    ensures Stmts(entries[..i + 1]) == Stmts(entries[..i]) + [entries[i].stmt]
    ensures ToSet(Stmts(entries[..i + 1])) == ToSet(Stmts(entries[..i])) + {entries[i].stmt}
  {
    var ss := Stmts(entries);
    assert Stmts(entries[..i]) == ss[..i];
    assert forall j :: 0 <= j < i ==> ss[j] != ss[i];
  }

  // ---- Conservation ----------------------------------------------------------------------

  lemma {:induction false} ReverseMultiset<T>(s: seq<T>)
    ensures multiset(Reverse(s)) == multiset(s)
  {
    if s != [] {
      ReverseMultiset(s[1..]);
      assert s == [s[0]] + s[1..];
    }
  }

  lemma {:induction false} RemoveMultiset<T>(s: seq<T>, i: nat)
    requires i < |s|
    ensures multiset(s) == multiset(Remove(s, i)) + multiset{s[i]}
  {
    assert s == s[..i] + [s[i]] + s[i + 1..];
  }

  lemma {:induction false} ReplaceConserves(entries: seq<Cached>, i: nat, c: Cached)
    requires i < |entries|
    ensures multiset(Stmts(entries)) + multiset{c.stmt}
         == multiset(Stmts(ToFront(entries[i := c], i))) + multiset{entries[i].stmt}
  {
    RemoveMultiset(Stmts(entries), i);
    assert Stmts(ToFront(entries[i := c], i)) == [c.stmt] + Remove(Stmts(entries), i);
  }

  lemma {:induction false} SplitLast(entries: seq<Cached>)
    requires entries != []
    ensures var n := |entries| - 1;
            multiset(Stmts(entries)) == multiset(Stmts(entries[..n])) + multiset{entries[n].stmt}
  {
    var n := |entries| - 1;
    assert Stmts(entries) == Stmts(entries[..n]) + [entries[n].stmt];
  }

  lemma {:induction false} SplitFirst(c: Cached, entries: seq<Cached>)
    ensures multiset(Stmts([c] + entries)) == multiset{c.stmt} + multiset(Stmts(entries))
  {
    assert Stmts([c] + entries) == [c.stmt] + Stmts(entries);
  }

  /** No insertion loses or duplicates a statement: every one is cached or finalized afterwards. */
  lemma {:induction false} PutConserves(
    capacity: nat, entries: seq<Cached>, sql: string, stmt: StmtId, allocOk: bool)
    ensures var e := Put(capacity, entries, sql, stmt, allocOk);
            multiset(Stmts(entries)) + multiset{stmt} == multiset(Stmts(e.entries)) + multiset(e.finalized)
  {
    hide Stmts, ToFront, Find;
    var i := Find(entries, sql);
    if capacity > 0 {
      if i >= 0 {
        ReplaceConserves(entries, i, Cached(sql, stmt));
      } else if |entries| >= capacity {
        SplitLast(entries);
        SplitFirst(Cached(sql, stmt), entries[..|entries| - 1]);
      } else {
        SplitFirst(Cached(sql, stmt), entries);
      }
    }
  }

  lemma {:induction false} StmtsSplit(entries: seq<Cached>, n: nat)
    requires n <= |entries|
    ensures multiset(Stmts(entries)) == multiset(Stmts(entries[..n])) + multiset(Stmts(entries[n..]))
  {
    assert Stmts(entries) == Stmts(entries[..n]) + Stmts(entries[n..]);
  }

  /** A resize conserves statements too: the survivors and the surplus are all of them. */
  lemma {:induction false} ResizeConserves(capacity: nat, entries: seq<Cached>)
    ensures multiset(Stmts(entries))
         == multiset(Stmts(Truncate(capacity, entries))) + multiset(Surplus(capacity, entries))
  {
    if |entries| > capacity {
      ReverseMultiset(Stmts(entries[capacity..]));
      StmtsSplit(entries, capacity);
    }
  }

  // ---- Whole traces ----------------------------------------------------------------------

  /** `get_or_prepare` on cache contents: a lookup, and on a miss an insertion of the fresh statement. */
  ghost function Acquire(capacity: nat, entries: seq<Cached>, sql: string, prepared: StmtId): seq<Cached> {
    if Get(entries, sql).0.Some? then Get(entries, sql).1
    else if capacity == 0 then entries
    else Put(capacity, entries, sql, prepared, true).entries
  }

  /** A run of acquisitions, the i-th of which would prepare statement `first + i`. */
  ghost function RunTrace(capacity: nat, entries: seq<Cached>, trace: seq<string>, first: StmtId): seq<Cached>
    decreases |trace|
  {
    if trace == [] then entries
    else RunTrace(capacity, Acquire(capacity, entries, trace[0], first), trace[1..], first + 1)
  }

  function Without(keys: seq<string>, key: string): seq<string> {
    if keys == [] then []
    else if keys[0] == key then Without(keys[1..], key)
    else [keys[0]] + Without(keys[1..], key)
  }

  /** The distinct keys used so far, most recent first: the policy's unbounded reference. */
  function RecentFirst(recent: seq<string>, trace: seq<string>): seq<string>
    decreases |trace|
  {
    if trace == [] then recent
    else RecentFirst([trace[0]] + Without(recent, trace[0]), trace[1..])
  }

  lemma {:induction false} WithoutAbsent(keys: seq<string>, key: string)
    requires key !in keys
    ensures Without(keys, key) == keys
  {
    if keys != [] { WithoutAbsent(keys[1..], key); }
  }

  lemma {:induction false} WithoutIsRemove(keys: seq<string>, i: nat)
    requires i < |keys| && Distinct(keys)
    ensures Without(keys, keys[i]) == Remove(keys, i)
  {
    var tail := keys[1..];
    if i == 0 {
      assert keys[0] !in tail;
      WithoutAbsent(tail, keys[0]);
    } else {
      WithoutIsRemove(tail, i - 1);
      assert Remove(keys, i) == [keys[0]] + Remove(tail, i - 1);
    }
  }

  lemma {:induction false} WithoutDistinct(keys: seq<string>, key: string)
    requires Distinct(keys)
    ensures Distinct(Without(keys, key)) && key !in Without(keys, key)
    ensures forall k :: k in Without(keys, key) ==> k in keys
  {
    if keys != [] {
      WithoutDistinct(keys[1..], key);
      assert keys[0] !in keys[1..];
    }
  }

  /** On keys, an acquisition puts its key first and drops what no longer fits. */
  lemma {:induction false} AcquireKeys(capacity: nat, entries: seq<Cached>, sql: string, prepared: StmtId)
    requires WellFormed(capacity, entries)
    ensures Keys(Acquire(capacity, entries, sql, prepared))
         == Truncate(capacity, [sql] + Without(Keys(entries), sql))
    ensures WellFormed(capacity, Acquire(capacity, entries, sql, prepared))
  {
    var i := Find(entries, sql);
    if i >= 0 {
      ToFrontDistinct(entries, i);
      WithoutIsRemove(Keys(entries), i);
      assert Keys(ToFront(entries, i)) == [sql] + Remove(Keys(entries), i);
    } else {
      AcquireMiss(capacity, entries, sql, prepared);
    }
  }

  lemma {:induction false} AcquireMiss(capacity: nat, entries: seq<Cached>, sql: string, prepared: StmtId)
    requires WellFormed(capacity, entries) && Find(entries, sql) < 0
    ensures Keys(Acquire(capacity, entries, sql, prepared))
         == Truncate(capacity, [sql] + Without(Keys(entries), sql))
    ensures WellFormed(capacity, Acquire(capacity, entries, sql, prepared))
  {
    hide Find, ToFront;
    PutWellFormed(capacity, entries, sql, prepared, true);
    WithoutAbsent(Keys(entries), sql);
    if capacity > 0 {
      var kept := Truncate(capacity - 1, entries);
      assert Keys([Cached(sql, prepared)] + kept) == [sql] + Truncate(capacity - 1, Keys(entries));
      TruncateCons(capacity, sql, Keys(entries));
    }
  }

  lemma {:induction false} TruncateWithout(n: nat, keys: seq<string>, key: string)
    requires Distinct(keys) && n > 0
    ensures Truncate(n - 1, Without(Truncate(n, keys), key)) == Truncate(n - 1, Without(keys, key))
  {
    var cut := Truncate(n, keys);
    if i :| 0 <= i < |keys| && keys[i] == key {
      WithoutIsRemove(keys, i);
      if i < |cut| {
        WithoutIsRemove(cut, i);
        assert Truncate(n - 1, Remove(cut, i)) == Truncate(n - 1, Remove(keys, i));
      } else {
        WithoutAbsent(cut, key);
        assert cut == keys[..n] && cut[..n - 1] == Remove(keys, i)[..n - 1];
      }
    } else {
      WithoutAbsent(keys, key);
      WithoutAbsent(cut, key);
    }
  }

  lemma {:induction false} TruncateCons(n: nat, key: string, keys: seq<string>)
    requires n > 0
    ensures Truncate(n, [key] + keys) == [key] + Truncate(n - 1, keys)
  {
  }

  /** The cache holds exactly the first `capacity` keys of the recency order. */
  ghost predicate Mirrors(capacity: nat, entries: seq<Cached>, recent: seq<string>) {
    WellFormed(capacity, entries) && Distinct(recent) && Keys(entries) == Truncate(capacity, recent)
  }

  lemma {:induction false} AcquireMirrors(
    capacity: nat, entries: seq<Cached>, recent: seq<string>, sql: string, prepared: StmtId)
    requires Mirrors(capacity, entries, recent)
    ensures Mirrors(capacity, Acquire(capacity, entries, sql, prepared), [sql] + Without(recent, sql))
  {
    hide Acquire, Without;
    AcquireKeys(capacity, entries, sql, prepared);
    WithoutDistinct(recent, sql);
    if capacity > 0 {
      TruncateWithout(capacity, recent, sql);
      TruncateCons(capacity, sql, Without(Keys(entries), sql));
      TruncateCons(capacity, sql, Without(recent, sql));
    }
  }

  /**
   * LRU policy over whole traces: after any sequence of acquisitions the cache still holds exactly
   * the first `capacity` keys of the distinct most-recent-first order.
   */
  lemma {:induction false} TraceMirrors(
    capacity: nat, entries: seq<Cached>, recent: seq<string>, trace: seq<string>, first: StmtId)
    requires Mirrors(capacity, entries, recent)
    ensures Mirrors(capacity, RunTrace(capacity, entries, trace, first), RecentFirst(recent, trace))
    decreases |trace|
  {
    hide Mirrors, Acquire, Without;
    if trace != [] {
      var after := Acquire(capacity, entries, trace[0], first);
      var now := [trace[0]] + Without(recent, trace[0]);
      AcquireMirrors(capacity, entries, recent, trace[0], first);
      TraceMirrors(capacity, after, now, trace[1..], first + 1);
    }
  }

  lemma {:induction false} TruncatePrefix<T>(small: nat, large: nat, s: seq<T>)
    requires small <= large
    ensures Truncate(small, s) <= Truncate(large, s)
  {
  }

  /** Two caches that mirror the same history: the smaller one's keys are a prefix of the larger one's. */
  lemma {:induction false} MirrorsPrefix(small: nat, large: nat, a: seq<Cached>, b: seq<Cached>, recent: seq<string>)
    requires small <= large && Mirrors(small, a, recent) && Mirrors(large, b, recent)
    ensures Keys(a) <= Keys(b)
  {
    TruncatePrefix(small, large, recent);
  }

  /** Inclusion: on the same trace a smaller cache always holds a prefix of a larger one. */
  lemma {:induction false} SmallerCacheIsPrefix(small: nat, large: nat, trace: seq<string>, first: StmtId)
    requires small <= large
    ensures Keys(RunTrace(small, [], trace, first)) <= Keys(RunTrace(large, [], trace, first))
  {
    hide RunTrace, RecentFirst;
    TraceMirrors(small, [], [], trace, first);
    TraceMirrors(large, [], [], trace, first);
    TruncatePrefix(small, large, RecentFirst([], trace));
  }
}
