/** Nested transactions as a stack of snapshots, and the names that index it. */
module TxSpec {
  import opened SqlText
  import opened SqlEngine
  import opened Driving

  const MAX_TX_DEPTH: nat := 16

  /** The savepoint of nesting level `k`. */
  function SpName(k: nat): string { "sp_" + Decimal(k) }

  lemma {:induction false} SpNamesDiffer(j: nat, k: nat)
    requires j != k
    ensures SpName(j) != SpName(k)
  {
    if Decimal(j) == Decimal(k) {
      DecimalInjective(j, k);
    }
    assert SpName(j)[3..] == Decimal(j) && SpName(k)[3..] == Decimal(k);
  }

  /** Frame 0 is the transaction; frame k, counting from 0, is the savepoint of level k + 1. */
  ghost predicate InStep(frames: seq<Frame>, depth: nat, names: seq<string>) {
    && depth == |frames| <= MAX_TX_DEPTH == |names|
    && (depth > 0 ==> frames[0].name == BEGIN_FRAME)
    && forall k :: 1 <= k < depth ==> frames[k].name == SpName(k + 1) == names[k]
  }

  /** The current name finds the innermost frame and no other frame has it. */
  lemma {:induction false} InnermostIsLast(frames: seq<Frame>, depth: nat, names: seq<string>)
    requires InStep(frames, depth, names) && depth >= 2
    ensures InnermostNamed(frames, names[depth - 1]) == depth - 1
    ensures forall k :: 1 <= k < depth - 1 ==> frames[k].name != names[depth - 1]
  {
    hide SpName;
    forall k | 1 <= k < depth - 1 ensures frames[k].name != names[depth - 1] { SpNamesDiffer(k + 1, depth); }
  }

  // ---- The stack -------------------------------------------------------------------------

  /** The tables now, and at each enclosing begin, outermost first. */
  datatype TxState = TxState(stack: seq<Tables>, tables: Tables)

  /** What a call turned out to do; calls that fail do nothing. */
  datatype TxEvent = Began | Committed | RolledBack | Changed(tables: Tables)

  ghost predicate Enabled(s: TxState, e: TxEvent) {
    match e
    case Began => |s.stack| < MAX_TX_DEPTH
    case Committed => s.stack != []
    case RolledBack => s.stack != []
    case Changed(_) => true
  }

  ghost function Next(s: TxState, e: TxEvent): TxState
    requires Enabled(s, e)
  {
    var n := |s.stack|;
    match e
    case Began => TxState(s.stack + [s.tables], s.tables)
    case Committed => TxState(s.stack[..n - 1], s.tables)
    case RolledBack => TxState(s.stack[..n - 1], s.stack[n - 1])
    case Changed(t) => TxState(s.stack, t)
  }

  ghost predicate Runs(s: TxState, es: seq<TxEvent>)
    decreases |es|
  {
    es != [] ==> Enabled(s, es[0]) && Runs(Next(s, es[0]), es[1..])
  }

  ghost function NextAll(s: TxState, es: seq<TxEvent>): TxState
    requires Runs(s, es)
    decreases |es|
  {
    if es == [] then s else NextAll(Next(s, es[0]), es[1..])
  }

  /** How much deeper a run ends than it began. */
  function Level(es: seq<TxEvent>): int {
    if es == [] then 0
    else (match es[0] case Began => 1 case Changed(_) => 0 case _ => -1) + Level(es[1..])
  }

  /** A run that never ends a transaction it did not begin. */
  ghost predicate Inner(es: seq<TxEvent>) {
    forall k :: 0 <= k <= |es| ==> Level(es[..k]) >= 0
  }

  lemma {:induction false} RunsJoin(s: TxState, a: seq<TxEvent>, b: seq<TxEvent>)
    ensures Runs(s, a + b) <==> Runs(s, a) && Runs(NextAll(s, a), b)
    ensures Runs(s, a + b) ==> NextAll(s, a + b) == NextAll(NextAll(s, a), b)
    decreases |a|
  {
    if a == [] {
      assert a + b == b;
    } else {
      assert (a + b)[1..] == a[1..] + b && (a + b)[0] == a[0];
      if Enabled(s, a[0]) {
        RunsJoin(Next(s, a[0]), a[1..], b);
      }
    }
  }

  /** An inner run leaves the snapshots below it alone, and ends as deep as its level says. */
  lemma {:induction false} InnerKeepsBase(s: TxState, es: seq<TxEvent>, base: nat)
    requires Runs(s, es) && base <= |s.stack|
    requires forall k :: 0 <= k <= |es| ==> |s.stack| + Level(es[..k]) >= base
    ensures var end := NextAll(s, es);
            |end.stack| == |s.stack| + Level(es) && base <= |end.stack| && end.stack[..base] == s.stack[..base]
    decreases |es|
  {
    if es != [] {
      var t := Next(s, es[0]);
      assert es[..1][1..] == [] && es[..1][0] == es[0];
      assert Level(es[..1]) == |t.stack| - |s.stack|;
      assert t.stack[..base] == s.stack[..base];
      forall k | 0 <= k <= |es| - 1 ensures |t.stack| + Level(es[1..][..k]) >= base {
        assert es[..k + 1][1..] == es[1..][..k] && es[..k + 1][0] == es[0];
        assert |s.stack| + Level(es[..k + 1]) >= base;
      }
      InnerKeepsBase(t, es[1..], base);
    }
  }

  /**
   * Rolling back restores the tables of the matching begin, whatever a balanced run did in between,
   * and the enclosing transactions are as they were.
   */
  lemma {:induction false} RollbackRestores(s: TxState, es: seq<TxEvent>)
    requires Runs(s, [Began] + es + [RolledBack]) && Inner(es) && Level(es) == 0
    ensures NextAll(s, [Began] + es + [RolledBack]) == s
  {
    var b := Next(s, Began);
    RunsJoin(s, [Began] + es, [RolledBack]);
    RunsJoin(s, [Began], es);
    assert NextAll(s, [Began]) == b by { assert [Began][1..] == []; }
    InnerKeepsBase(b, es, |b.stack|);
    var e := NextAll(b, es);
    assert e.stack == e.stack[..|b.stack|] == b.stack;
    assert NextAll(e, [RolledBack]) == Next(e, RolledBack) by { assert [RolledBack][1..] == []; }
    assert b.stack[..|s.stack|] == s.stack;
  }

  /** Committing keeps them. */
  lemma {:induction false} CommitKeeps(s: TxState, es: seq<TxEvent>)
    requires Runs(s, [Began] + es + [Committed]) && Inner(es) && Level(es) == 0
    ensures Enabled(s, Began) && Runs(Next(s, Began), es)
    ensures NextAll(s, [Began] + es + [Committed]) == TxState(s.stack, NextAll(Next(s, Began), es).tables)
  {
    var b := Next(s, Began);
    RunsJoin(s, [Began] + es, [Committed]);
    RunsJoin(s, [Began], es);
    assert NextAll(s, [Began]) == b by { assert [Began][1..] == []; }
    InnerKeepsBase(b, es, |b.stack|);
    var e := NextAll(b, es);
    assert e.stack == e.stack[..|b.stack|] == b.stack;
    assert NextAll(e, [Committed]) == Next(e, Committed) by { assert [Committed][1..] == []; }
    assert b.stack[..|s.stack|] == s.stack;
  }

  /** In every run from a consistent state the depth stays between 0 and 16. */
  lemma {:induction false} DepthBounded(s: TxState, es: seq<TxEvent>)
    requires Runs(s, es) && |s.stack| <= MAX_TX_DEPTH
    ensures |NextAll(s, es).stack| <= MAX_TX_DEPTH
    decreases |es|
  {
    if es != [] {
      DepthBounded(Next(s, es[0]), es[1..]);
    }
  }

  /** The stack that the driver's frames stand for. */
  ghost function StateOf(frames: seq<Frame>, tables: Tables): TxState {
    TxState(seq(|frames|, i requires 0 <= i < |frames| => frames[i].saved), tables)
  }

  lemma {:induction false} Pushed(frames: seq<Frame>, depth: nat, names: seq<string>, name: string, tables: Tables)
    requires InStep(frames, depth, names) && depth < MAX_TX_DEPTH
    requires if depth == 0 then name == BEGIN_FRAME else name == SpName(depth + 1) == names[depth]
    ensures InStep(frames + [Frame(name, tables)], depth + 1, names)
    ensures Enabled(StateOf(frames, tables), Began)
    ensures StateOf(frames + [Frame(name, tables)], tables) == Next(StateOf(frames, tables), Began)
  {
    hide SpName;
  }

  lemma {:induction false} Popped(frames: seq<Frame>, depth: nat, names: seq<string>, tables: Tables)
    requires InStep(frames, depth, names) && depth > 0
    ensures InStep(frames[..depth - 1], depth - 1, names)
    ensures Enabled(StateOf(frames, tables), Committed) && Enabled(StateOf(frames, tables), RolledBack)
    ensures StateOf(frames[..depth - 1], tables) == Next(StateOf(frames, tables), Committed)
    ensures StateOf(frames[..depth - 1], frames[depth - 1].saved) == Next(StateOf(frames, tables), RolledBack)
    ensures frames[..depth] == frames && StateOf(frames, tables).stack[depth - 1] == frames[depth - 1].saved
    ensures StateOf(frames, frames[depth - 1].saved) == StateOf(frames, tables).(tables := frames[depth - 1].saved)
  {
    hide SpName;
  }

  /** The name of an unused level can be written without disturbing the levels in use. */
  lemma {:induction false} Named(frames: seq<Frame>, depth: nat, names: seq<string>, name: string)
    requires InStep(frames, depth, names) && depth < MAX_TX_DEPTH
    ensures InStep(frames, depth, names[depth := name])
  {
    hide SpName;
  }
}
