/** The cache of a handle along a whole trace of statement uses. */
module Traces {
  import opened Core
  import opened SqlStatements
  import opened LruSpec
  import opened StmtCaching
  import opened Handles

  /** SQLite prepares only what it can parse. */
  predicate Refused(d: Dialect, sql: string) { d.Sqlite? && ParseText(sql).None? }

  /** The texts of a trace that get a statement. */
  function Accepted(d: Dialect, trace: seq<string>): seq<string> {
    if trace == [] then []
    else
      var n := |trace| - 1;
      Accepted(d, trace[..n]) + if Refused(d, trace[n]) then [] else [trace[n]]
  }

  lemma {:induction false} NoneUsed(d: Dialect, trace: seq<string>, recent: seq<string>)
    ensures RecentFirst(recent, Accepted(d, trace[..0])) == recent
  {
  }

  lemma {:induction false} AcceptedStep(d: Dialect, trace: seq<string>, i: nat)
    requires i < |trace|
    ensures Accepted(d, trace[..i + 1]) ==
            Accepted(d, trace[..i]) + if Refused(d, trace[i]) then [] else [trace[i]]
  {
    hide ParseText;
    assert trace[..i + 1][..i] == trace[..i];
  }

  lemma {:induction false} RecentStep(recent: seq<string>, trace: seq<string>, sql: string)
    ensures RecentFirst(recent, trace + [sql]) == [sql] + Without(RecentFirst(recent, trace), sql)
    decreases |trace|
  {
    hide Without;
    if trace != [] {
      RecentStep([trace[0]] + Without(recent, trace[0]), trace[1..], sql);
      assert (trace + [sql])[1..] == trace[1..] + [sql];
    } else {
      assert trace + [sql] == [sql];
    }
  }

  lemma {:induction false} UseStep(d: Dialect, recent: seq<string>, trace: seq<string>, i: nat)
    requires i < |trace|
    ensures var was := RecentFirst(recent, Accepted(d, trace[..i]));
            RecentFirst(recent, Accepted(d, trace[..i + 1])) ==
            if Refused(d, trace[i]) then was else [trace[i]] + Without(was, trace[i])
  {
    hide RecentFirst, Accepted, Without, ParseText;
    AcceptedStep(d, trace, i);
    RecentStep(recent, Accepted(d, trace[..i]), trace[i]);
    assert Accepted(d, trace[..i]) + [] == Accepted(d, trace[..i]);
  }

  /** Uses one statement. */
  method Use(h: Handle, sql: string, ghost recent: seq<string>)
    requires h.Valid() && Mirrors(h.cache.capacity, h.cache.contents, recent)
    modifies h.cache, h.cache.buckets, h.cache.nodes, h.drv`stmts, h.drv`nextId, h.drv`finalized
    ensures h.Valid() && h.cache.capacity == old(h.cache.capacity)
    ensures h.cache.buckets == old(h.cache.buckets) && fresh(h.cache.nodes - old(h.cache.nodes))
    ensures var now := if Refused(h.drv.dialect, sql) then recent else [sql] + Without(recent, sql);
            Mirrors(h.cache.capacity, h.cache.contents, now)
  {
    hide StmtCache.Valid, Mirrors, Without, ParseText, Acquire, LruSpec.Put;
    AcquireMirrors(h.cache.capacity, h.cache.contents, recent, sql, h.drv.nextId);
    var status, id, owned := h.GetOrPrepare(sql, true);
    if status == Ok { h.Release(id, owned, h.drv.stmts); }
  }

  /** After any trace the cache holds the most recently used texts, as many as it has room for, latest first. */
  method UseAll(h: Handle, trace: seq<string>, ghost recent: seq<string>)
    requires h.Valid() && Mirrors(h.cache.capacity, h.cache.contents, recent)
    modifies h.cache, h.cache.buckets, h.cache.nodes, h.drv`stmts, h.drv`nextId, h.drv`finalized
    ensures h.Valid() && h.cache.capacity == old(h.cache.capacity)
    ensures Mirrors(h.cache.capacity, h.cache.contents, RecentFirst(recent, Accepted(h.drv.dialect, trace)))
  {
    hide *;
    ghost var d := h.drv.dialect;
    NoneUsed(d, trace, recent);
    for i := 0 to |trace|
      invariant h.Valid() && h.cache.capacity == old(h.cache.capacity) && h.cache.buckets == old(h.cache.buckets)
      invariant fresh(h.cache.nodes - old(h.cache.nodes))
      invariant Mirrors(h.cache.capacity, h.cache.contents, RecentFirst(recent, Accepted(d, trace[..i])))
    {
      UseStep(d, recent, trace, i);
      Use(h, trace[i], RecentFirst(recent, Accepted(d, trace[..i])));
    }
    assert trace[..|trace|] == trace;
  }
}
