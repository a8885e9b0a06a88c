/** Who owns each prepared statement: the cache, a caller or iterator, or nobody any more. */
module Ledger {
  import opened Core
  import opened LruSpec
  import opened Driving
  import opened SqlStatements
  import opened PgParams
  import opened Conditions
  import opened Queries
  import opened SqlEngine

  /** The statements prepared so far. */
  function Ids(n: nat): (ids: set<StmtId>)
    ensures forall i: StmtId :: i in ids <==> i < n
  {
    if n == 0 then {} else Ids(n - 1) + {n - 1}
  }

  /**
   * Every statement ever prepared is cached once, held once, or finalized once. The left side
   * is a multiset, so nothing is owned twice; the right side has them all, so nothing is lost.
   */
  ghost predicate Balanced(contents: seq<Cached>, held: set<StmtId>, finalized: seq<StmtId>, next: StmtId) {
    multiset(Stmts(contents)) + multiset(held) + multiset(finalized) == multiset(Ids(next))
  }

  /** The live statements are the ones not finalized. */
  ghost predicate Alive(live: set<StmtId>, finalized: seq<StmtId>, next: StmtId) {
    live == Ids(next) - ToSet(finalized)
  }

  lemma {:induction false} MemberOnce(contents: seq<Cached>, held: set<StmtId>, finalized: seq<StmtId>, next: StmtId,
      id: StmtId)
    requires Balanced(contents, held, finalized, next)
    ensures multiset(Stmts(contents))[id] + multiset(held)[id] + multiset(finalized)[id] == if id < next then 1 else 0
  {
    assert (multiset(Stmts(contents)) + multiset(held) + multiset(finalized))[id] == multiset(Ids(next))[id];
  }

  /** Held and cached statements are live, and distinct. */
  lemma {:induction false} BalancedOwned(contents: seq<Cached>, held: set<StmtId>, finalized: seq<StmtId>, next: StmtId,
      live: set<StmtId>)
    requires Balanced(contents, held, finalized, next) && Alive(live, finalized, next)
    ensures Owned(contents, live) && held <= live
    ensures forall id :: id in held ==> id !in Stmts(contents)
    ensures live == ToSet(Stmts(contents)) + held
  {
    var ss := Stmts(contents);
    forall i, j | 0 <= i < j < |ss| ensures ss[i] != ss[j] {
      if ss[i] == ss[j] {
        MemberOnce(contents, held, finalized, next, ss[i]);
        TwiceIn(ss, i, j);
      }
    }
    forall i | 0 <= i < |contents| ensures contents[i].stmt in live {
      MemberOnce(contents, held, finalized, next, ss[i]);
      assert ss[i] in multiset(ss);
    }
    forall id | id in held ensures id in live && id !in ss {
      MemberOnce(contents, held, finalized, next, id);
      assert multiset(held)[id] == 1;
    }
    forall id | id in live ensures id in ToSet(ss) || id in held {
      MemberOnce(contents, held, finalized, next, id);
      assert id !in multiset(finalized) by { assert id in multiset(finalized) ==> id in finalized; }
    }
  }

  lemma {:induction false} TwiceIn(s: seq<StmtId>, i: nat, j: nat)
    requires i < j < |s| && s[i] == s[j]
    ensures multiset(s)[s[i]] >= 2
  {
    assert s == s[..j] + s[j..];
    assert multiset(s) == multiset(s[..j]) + multiset(s[j..]);
    assert s[..j][i] == s[i] && s[i] in multiset(s[..j]);
    assert s[j..][0] == s[j] && s[j] in multiset(s[j..]);
  }

  /** A new statement is held by whoever prepared it. */
  lemma {:induction false} BalancedPrepare(contents: seq<Cached>, held: set<StmtId>, finalized: seq<StmtId>,
      next: StmtId, live: set<StmtId>)
    requires Balanced(contents, held, finalized, next) && Alive(live, finalized, next)
    ensures next !in held && next !in live && next !in Stmts(contents)
    ensures Balanced(contents, held + {next}, finalized, next + 1) && Alive(live + {next}, finalized, next + 1)
  {
    MemberOnce(contents, held, finalized, next, next);
    assert next !in held by { assert next in held ==> multiset(held)[next] == 1; }
    assert next !in finalized by { assert next in finalized ==> next in multiset(finalized); }
    assert next !in Stmts(contents) by { assert next in Stmts(contents) ==> next in multiset(Stmts(contents)); }
    assert multiset(held + {next}) == multiset(held) + multiset{next};
    assert Ids(next + 1) == Ids(next) + {next};
    assert multiset(Ids(next + 1)) == multiset(Ids(next)) + multiset{next};
  }

  /** A held statement is finalized. */
  lemma {:induction false} BalancedFinalize(contents: seq<Cached>, held: set<StmtId>, finalized: seq<StmtId>,
      next: StmtId, live: set<StmtId>, id: StmtId)
    requires Balanced(contents, held, finalized, next) && Alive(live, finalized, next) && id in held
    ensures Balanced(contents, held - {id}, finalized + [id], next) && Alive(live - {id}, finalized + [id], next)
  {
    assert multiset(held) == multiset(held - {id}) + multiset{id};
    assert multiset(finalized + [id]) == multiset(finalized) + multiset{id};
    assert ToSet(finalized + [id]) == ToSet(finalized) + {id};
  }

  /** A held statement moves into the cache, which finalizes `dropped` to make room. */
  lemma {:induction false} BalancedPut(
    capacity: nat, contents: seq<Cached>, held: set<StmtId>, finalized: seq<StmtId>, next: StmtId, live: set<StmtId>,
        sql: string, id: StmtId, allocOk: bool)
    requires Balanced(contents, held, finalized, next) && Alive(live, finalized, next) && id in held
    ensures var e := LruSpec.Put(capacity, contents, sql, id, allocOk);
            && Balanced(e.entries, held - {id}, finalized + e.finalized, next)
            && Alive(live - ToSet(e.finalized), finalized + e.finalized, next)
  {
    PutConserves(capacity, contents, sql, id, allocOk);
    hide LruSpec.Put, Stmts;
    var e := LruSpec.Put(capacity, contents, sql, id, allocOk);
    MoveBalance(contents, e.entries, held, finalized, e.finalized, next, id);
    assert ToSet(finalized + e.finalized) == ToSet(finalized) + ToSet(e.finalized);
  }

  lemma {:induction false} MoveBalance(before: seq<Cached>, after: seq<Cached>, held: set<StmtId>,
      finalized: seq<StmtId>, dropped: seq<StmtId>, next: StmtId, id: StmtId)
    requires Balanced(before, held, finalized, next) && id in held
    requires multiset(Stmts(before)) + multiset{id} == multiset(Stmts(after)) + multiset(dropped)
    ensures Balanced(after, held - {id}, finalized + dropped, next)
  {
    hide Stmts;
    assert multiset(held) == multiset(held - {id}) + multiset{id};
    assert multiset(finalized + dropped) == multiset(finalized) + multiset(dropped);
    Reshuffle(multiset(Stmts(before)), multiset(Stmts(after)), multiset(held - {id}), multiset(finalized),
        multiset(dropped), multiset{id});
  }

  lemma {:induction false} Reshuffle(a: multiset<StmtId>, b: multiset<StmtId>, h: multiset<StmtId>, f: multiset<StmtId>,
      d: multiset<StmtId>, x: multiset<StmtId>)
    requires a + x == b + d
    ensures a + (h + x) + f == b + h + (f + d)
  {
    assert a + (h + x) + f == (a + x) + h + f;
    assert b + h + (f + d) == (b + d) + h + f;
  }

  /** Shrinking the cache, or emptying it, finalizes what falls out. */
  lemma {:induction false} BalancedDrop(before: seq<Cached>, after: seq<Cached>, held: set<StmtId>,
      finalized: seq<StmtId>, dropped: seq<StmtId>, next: StmtId, live: set<StmtId>)
    requires Balanced(before, held, finalized, next) && Alive(live, finalized, next)
    requires multiset(Stmts(before)) == multiset(Stmts(after)) + multiset(dropped)
    ensures Balanced(after, held, finalized + dropped, next) && Alive(live - ToSet(dropped), finalized + dropped, next)
  {
    hide Stmts;
    assert multiset(finalized + dropped) == multiset(finalized) + multiset(dropped);
    assert ToSet(finalized + dropped) == ToSet(finalized) + ToSet(dropped);
  }

  /** A hit only reorders the cache. */
  lemma {:induction false} BalancedGet(contents: seq<Cached>, held: set<StmtId>, finalized: seq<StmtId>, next: StmtId,
      sql: string)
    requires Balanced(contents, held, finalized, next)
    ensures Balanced(LruSpec.Get(contents, sql).1, held, finalized, next)
  {
    var i := Find(contents, sql);
    if i >= 0 {
      ToFrontSame(contents, i);
      RemoveMultiset(Stmts(contents), i);
      var ss := Stmts(ToFront(contents, i));
      assert ss == [contents[i].stmt] + Remove(Stmts(contents), i);
      assert multiset(ss) == multiset{contents[i].stmt} + multiset(Remove(Stmts(contents), i));
    }
  }

  // ---- Cached statements -----------------------------------------------------------------

  /** A statement prepared from `sql`. */
  predicate PreparedFrom(d: Dialect, st: StmtState, sql: string) {
    st.sql == sql && |st.binds| == ParamCount(d, sql) && (d.Sqlite? ==> ParseText(sql).Some?)
  }

  /** Every cached statement was prepared from its key, and but for `busy` none is running. */
  ghost predicate Shelved(d: Dialect, contents: seq<Cached>, stmts: map<StmtId, StmtState>, busy: set<StmtId>) {
    forall i :: 0 <= i < |contents| ==>
      && contents[i].stmt in stmts && PreparedFrom(d, stmts[contents[i].stmt], contents[i].sql)
      && (contents[i].stmt !in busy ==> stmts[contents[i].stmt].cursor.None?)
  }

  /** A live statement prepared from `sql` that is not running. */
  predicate IdleFor(d: Dialect, stmts: map<StmtId, StmtState>, id: StmtId, sql: string) {
    id in stmts && PreparedFrom(d, stmts[id], sql) && stmts[id].cursor.None?
  }

  /** A hit returns a statement prepared from that text. */
  lemma {:induction false} ShelvedGet(d: Dialect, contents: seq<Cached>, stmts: map<StmtId, StmtState>, sql: string)
    requires Shelved(d, contents, stmts, {})
    ensures var g := LruSpec.Get(contents, sql);
            && Shelved(d, g.1, stmts, {})
            && (g.0.Some? ==> g.0.value in Stmts(g.1) && IdleFor(d, stmts, g.0.value, sql))
  {
    hide PreparedFrom;
    var i := Find(contents, sql);
    if i >= 0 {
      var after := ToFront(contents, i);
      ToFrontSame(contents, i);
      forall k | 0 <= k < |after| ensures after[k] in contents { assert after[k] in after; }
      assert Stmts(after)[0] == contents[i].stmt;
    }
  }

  lemma {:induction false} ShelvedMore(d: Dialect, contents: seq<Cached>, stmts: map<StmtId, StmtState>,
      busy: set<StmtId>)
    requires Shelved(d, contents, stmts, {})
    ensures Shelved(d, contents, stmts, busy)
  {
  }

  lemma {:induction false} MissKeeps(contents: seq<Cached>, sql: string)
    ensures LruSpec.Get(contents, sql).0.None? ==> LruSpec.Get(contents, sql).1 == contents
  {
  }

  /** A statement nobody cached does not disturb the cached ones. */
  lemma {:induction false} ShelvedPrepare(d: Dialect, contents: seq<Cached>, stmts: map<StmtId, StmtState>, id: StmtId,
      st: StmtState)
    requires Shelved(d, contents, stmts, {}) && id !in stmts
    ensures Shelved(d, contents, stmts[id := st], {})
  {
    hide PreparedFrom;
  }

  /** Insertion keeps every other entry, except the ones whose statements it finalizes. */
  lemma {:induction false} ShelvedPut(
    d: Dialect, capacity: nat, contents: seq<Cached>, stmts: map<StmtId, StmtState>, sql: string, id: StmtId,
        allocOk: bool)
    requires Shelved(d, contents, stmts, {}) && IdleFor(d, stmts, id, sql) && id !in Stmts(contents)
    requires Distinct(Stmts(contents))
    requires LruSpec.Get(contents, sql).0.None? && capacity > 0
    ensures var e := LruSpec.Put(capacity, contents, sql, id, allocOk);
            && e.status == (if allocOk then Ok else NoMemory)
            && Shelved(d, e.entries, stmts - ToSet(e.finalized), {})
            && (allocOk ==> id in Stmts(e.entries) && IdleFor(d, stmts - ToSet(e.finalized), id, sql))
  {
    hide PreparedFrom;
    var e := LruSpec.Put(capacity, contents, sql, id, allocOk);
    var n := |contents| - 1;
    forall k | 0 <= k < |contents| ensures contents[k].stmt != id { assert Stmts(contents)[k] in Stmts(contents); }
    assert allocOk ==> Stmts(e.entries)[0] == id;
    if n >= 0 {
      forall k | 0 <= k < n ensures contents[k].stmt != contents[n].stmt {
        assert Stmts(contents)[k] != Stmts(contents)[n];
      }
    }
  }

  /** Running a statement changes neither its text nor its number of values, so resetting it shelves it again. */
  lemma {:induction false} ShelvedAfter(d: Dialect, contents: seq<Cached>, was: map<StmtId, StmtState>,
      now: map<StmtId, StmtState>, id: StmtId)
    requires Shelved(d, contents, was, {id}) && id in was && id in now && now == was[id := now[id]]
    requires now[id].sql == was[id].sql && |now[id].binds| == |was[id].binds| && now[id].cursor.None?
    ensures Shelved(d, contents, now, {})
  {
  }

  lemma {:induction false} ShelvedWithout(d: Dialect, contents: seq<Cached>, was: map<StmtId, StmtState>,
      now: map<StmtId, StmtState>, id: StmtId)
    requires Shelved(d, contents, was, {id}) && id !in Stmts(contents)
    requires now.Keys >= was.Keys - {id} && forall k :: k in was && k != id ==> now[k] == was[k]
    ensures Shelved(d, contents, now, {})
  {
    forall i | 0 <= i < |contents| ensures contents[i].stmt != id { assert Stmts(contents)[i] in Stmts(contents); }
  }

  // ---- Statements held by iterators ------------------------------------------------------

  /** What an iterator reads: the rows of a schema's table that a condition selects. */
  datatype Scan = Scan(schema: Schema, cond: Option<Condition>)

  /** The statement still has the iterator's text and values, and any rows it holds are the schema's. */
  ghost predicate Scans(d: Dialect, scan: Scan, st: StmtState) {
    && st.sql == QueryText(d, scan.schema, SelectRows(scan.cond)) && st.binds == WhereLeaves(scan.cond)
    && PlainQuery(scan.schema, SelectRows(scan.cond))
    && (st.cursor.Some? ==> Shaped(|scan.schema.cols|, st.cursor.value.rows))
  }

  ghost predicate Scanning(d: Dialect, scans: map<StmtId, Scan>, stmts: map<StmtId, StmtState>) {
    forall id :: id in scans ==> id in stmts && Scans(d, scans[id], stmts[id])
  }

  /** Changes to other statements do not disturb the iterators. */
  lemma {:induction false} ScanningKeeps(d: Dialect, scans: map<StmtId, Scan>, was: map<StmtId, StmtState>,
      now: map<StmtId, StmtState>)
    requires Scanning(d, scans, was) && forall id :: id in scans && id in was ==> id in now && now[id] == was[id]
    ensures Scanning(d, scans, now)
  {
    hide Scans;
  }

  lemma {:induction false} ScanningMore(d: Dialect, scans: map<StmtId, Scan>, stmts: map<StmtId, StmtState>, id: StmtId,
      scan: Scan)
    requires Scanning(d, scans, stmts) && id in stmts && Scans(d, scan, stmts[id])
    ensures Scanning(d, scans[id := scan], stmts)
  {
    hide Scans;
  }

  lemma {:induction false} ScanningFewer(d: Dialect, scans: map<StmtId, Scan>, stmts: map<StmtId, StmtState>,
      id: StmtId)
    requires Scanning(d, scans, stmts)
    ensures Scanning(d, scans - {id}, stmts - {id})
  {
    hide Scans;
  }

  /** Shelved entries keep their statements when statements of no entry go away. */
  lemma {:induction false} ShelvedDrop(d: Dialect, contents: seq<Cached>, after: seq<Cached>,
      stmts: map<StmtId, StmtState>, gone: set<StmtId>)
    requires Shelved(d, contents, stmts, {})
    requires (forall i :: 0 <= i < |after| ==> after[i] in contents && after[i].stmt !in gone)
    ensures Shelved(d, after, stmts - gone, {})
  {
    hide PreparedFrom;
    forall i | 0 <= i < |after|
      ensures exists k :: 0 <= k < |contents| && contents[k] == after[i]
    {
      assert after[i] in contents;
    }
  }

  lemma {:induction false} ScanningAt(d: Dialect, scans: map<StmtId, Scan>, stmts: map<StmtId, StmtState>, id: StmtId)
    requires Scanning(d, scans, stmts) && id in scans
    ensures id in stmts && Scans(d, scans[id], stmts[id])
  {
  }

  /** An iterator's own step changes its cursor only. */
  lemma {:induction false} ScanningStep(d: Dialect, scans: map<StmtId, Scan>, was: map<StmtId, StmtState>,
      now: map<StmtId, StmtState>, id: StmtId)
    requires Scanning(d, scans, was) && id in scans && id in was && id in now && now == was[id := now[id]]
    requires Scans(d, scans[id], now[id])
    ensures Scanning(d, scans, now)
  {
    hide Scans;
  }
}
