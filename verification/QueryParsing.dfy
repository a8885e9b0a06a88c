/** Round trip: the reference parser reads every query's text back as the query. */
module QueryParsing {
  import opened Core
  import opened SqlText
  import opened Conditions
  import opened SqlGrammar
  import opened SqlStatements
  import opened Queries

  /** The WHERE clause a condition stands for, its leaves numbered from `n + 1`. */
  function FilterOf(n: nat, cond: Option<Condition>): Option<Expr>
    requires NoNestedAll(cond)
  {
    if NeedsWhere(cond) then Some(CondExpr(n, cond.value)) else None
  }

  /**
   * Exactly the queries whose text is a statement: match-all nodes stand alone, and an upsert
   * has a column besides the key to set.
   */
  predicate Printable(s: Schema, q: Query) {
    NoNestedAll(QueryCond(q)) && (q.UpsertRow? ==> |s.cols| >= 2)
  }

  function QueryStmt(s: Schema, q: Query): Stmt
    requires Printable(s, q) && (q.UpsertRow? ==> HasKey(s))
  {
    var filter := FilterOf(if q.UpdateField? then 1 else 0, QueryCond(q));
    match q
    case InsertRow => Insert(s.name, Names(s), Numbers(0, |s.cols|), None)
    case UpsertRow => Insert(s.name, Names(s), Numbers(0, |s.cols|), Some(Conflict(KeyName(s), SameSets(NonKey(s)))))
    case SelectRows(_) => Select(Names(s), s.name, filter)
    case CountRows(_) => Count(s.name, filter)
    case DeleteRows(_) => Delete(s.name, filter)
    case UpdateField(col, _) => Update(s.name, col, 1, filter)
    case SelectField(col, _) => Select([col], s.name, filter)
  }

  /** The clause parses back to the condition's own tree; with a nested match-all it does not parse. */
  lemma {:induction false} ParseWhere(n: nat, cond: Option<Condition>)
    ensures ParseFilter(WhereTokens(n, cond)) == if NoNestedAll(cond) then Some(FilterOf(n, cond)) else None
  {
    if NeedsWhere(cond) {
      var c := cond.value;
      var ct := CondTokens(n, c);
      assert ([Word("WHERE")] + ct)[1..] == ct && ct + [] == ct;
      if AllFree(c) {
        ParseCond(n, c, []);
        hide ParsePrimary, CondTokens, CondExpr;
        PrimaryIsOr(ct, CondExpr(n, c), []);
      } else {
        ParseCondFails(n, c, []);
        hide ParsePrimary, CondTokens;
        assert ParseAnd(ct).Fail? && ParseOr(ct).Fail?;
      }
    }
  }

  lemma {:induction false} Skip(a: seq<Token>, b: seq<Token>)
    ensures (a + b)[|a|..] == b && (a + b)[..|a|] == a
  {
  }

  lemma {:induction false} ParseSelectTokens(s: Schema, cond: Option<Condition>)
    requires s.cols != []
    ensures ParseStmt(SelectTokens(s, cond)) ==
            if NoNestedAll(cond) then Some(QueryStmt(s, SelectRows(cond))) else None
  {
    ParseFromNames(Names(s), s.name, cond);
    Skip([Word("SELECT")], NameTokens(Names(s)) + FromTokens(0, s.name, cond));
    hide ParseSelect, NameTokens, FromTokens, ParseUpdate, ParseDelete, ParseInsert;
  }

  lemma {:induction false} FromTokensParts(name: string, cond: Option<Condition>)
    ensures var f := FromTokens(0, name, cond);
            |f| >= 2 && f[0] == Word("FROM") && f[1] == Name(name) && f[2..] == WhereTokens(0, cond)
  {
  }

  /** A column list and what follows it. */
  lemma {:induction false} ParseFromNames(names: seq<string>, name: string, cond: Option<Condition>)
    requires names != []
    ensures ParseSelect(NameTokens(names) + FromTokens(0, name, cond)) ==
            if NoNestedAll(cond) then Some(Select(names, name, FilterOf(0, cond))) else None
  {
    FromTokensParts(name, cond);
    ParseNameList(names, FromTokens(0, name, cond));
    ParseWhere(0, cond);
    NameTokensStart(names);
    hide NameTokens, FromTokens, ParseNames, ParseFilter, WhereTokens, FilterOf, NoNestedAll;
    var ts := NameTokens(names) + FromTokens(0, name, cond);
    assert ts[0].Name?;
    assert |ts| >= 5 ==> ts[..5][0] == ts[0];
  }

  lemma {:induction false} NameTokensStart(names: seq<string>)
    requires names != []
    ensures NameTokens(names) != [] && NameTokens(names)[0] == Name(names[0])
  {
  }

  lemma {:induction false} ParseFieldTokens(s: Schema, col: string, cond: Option<Condition>)
    ensures ParseStmt(FieldTokens(s, col, cond)) ==
            if NoNestedAll(cond) then Some(QueryStmt(s, SelectField(col, cond))) else None
  {
    assert NameTokens([col]) == [Name(col)];
    ParseFromNames([col], s.name, cond);
    Skip([Word("SELECT")], [Name(col)] + FromTokens(0, s.name, cond));
    hide ParseSelect, FromTokens, NameTokens, ParseUpdate, ParseDelete, ParseInsert;
  }

  lemma {:induction false} ParseCountTokens(s: Schema, cond: Option<Condition>)
    ensures ParseStmt(CountTokens(s, cond)) ==
            if NoNestedAll(cond) then Some(QueryStmt(s, CountRows(cond))) else None
  {
    var from := FromTokens(0, s.name, cond);
    var ts := CountHead() + from;
    FromTokensParts(s.name, cond);
    ParseWhere(0, cond);
    Skip([Word("SELECT")], ts);
    hide FromTokens, CountHead, ParseFilter, WhereTokens, FilterOf, NoNestedAll, ParseUpdate, ParseDelete, ParseInsert,
         ParseSelect;
    ParseCountHead(from);
  }

  lemma {:induction false} ParseCountHead(from: seq<Token>)
    requires |from| >= 2 && from[0] == Word("FROM") && from[1].Name?
    ensures ParseSelect(CountHead() + from) ==
            var f := ParseFilter(from[2..]); if f.None? then None else Some(Count(from[1].name, f.value))
  {
    hide ParseNames, ParseFilter;
    var ts := CountHead() + from;
    assert CountHead() == [Word("COUNT"), Symbol('('), Symbol('*'), Symbol(')')];
    hide CountHead;
    assert ts[..5] == [Word("COUNT"), Symbol('('), Symbol('*'), Symbol(')'), Word("FROM")];
    assert ts[5] == from[1] && ts[6..] == from[2..];
  }

  lemma {:induction false} ParseDeleteTokens(s: Schema, cond: Option<Condition>)
    ensures ParseStmt(DeleteTokens(s, cond)) ==
            if NoNestedAll(cond) then Some(QueryStmt(s, DeleteRows(cond))) else None
  {
    var tw := WhereTokens(0, cond);
    ParseWhere(0, cond);
    hide ParseFilter, WhereTokens, FilterOf, NoNestedAll, ParseSelect, ParseUpdate, ParseInsert;
    var ts := DeleteTokens(s, cond);
    assert ts[1..][2..] == tw;
  }

  lemma {:induction false} ParseUpdateTokens(s: Schema, col: string, cond: Option<Condition>)
    ensures ParseStmt(UpdateTokens(s, col, cond)) ==
            if NoNestedAll(cond) then Some(QueryStmt(s, UpdateField(col, cond))) else None
  {
    var tw := WhereTokens(1, cond);
    ParseWhere(1, cond);
    hide ParseFilter, WhereTokens, FilterOf, NoNestedAll, ParseSelect, ParseDelete, ParseInsert;
    var ts := UpdateTokens(s, col, cond)[1..];
    assert ts == [Name(s.name), Word("SET"), Name(col), Compare(Eq), Param(1)] + tw;
    assert ts[5..] == tw;
  }

  lemma {:induction false} ValuesTokensParts(k: nat, tail: seq<Token>)
    requires k > 0 && NoComma(tail)
    ensures var ts := ValuesTokens(k) + tail;
            && ts != [] && ts[0] == Symbol('(')
            && ParseParams(ts[1..]) == Got(Numbers(0, k), [Symbol(')')] + tail)
  {
    ParseParamList(0, k, [Symbol(')')] + tail);
    hide ParseParams, ParamTokens, Numbers;
    assert (ValuesTokens(k) + tail)[1..] == ParamTokens(0, k) + ([Symbol(')')] + tail);
  }

  /** An INSERT up to its optional conflict clause. */
  lemma {:induction false} ParseInsertTokens(s: Schema, tail: seq<Token>)
    requires s.cols != [] && NoComma(tail)
    ensures var c := ParseConflict(tail);
            ParseStmt(InsertTokens(s) + tail) ==
            if c.None? then None else Some(Insert(s.name, Names(s), Numbers(0, |s.cols|), c.value))
  {
    var body := [Name(s.name), Symbol('(')] + (NameTokens(Names(s)) + AfterNames(s, tail));
    InsertSplit(s, tail);
    ParseInsertBody(s, tail);
    Skip([Word("INSERT"), Word("INTO")], body);
    hide InsertTokens, AfterNames, ParseInsert, ParseSelect, ParseUpdate, ParseDelete, NameTokens, Names;
    assert ParseStmt([Word("INSERT"), Word("INTO")] + body) == ParseInsert(body);
  }

  /** What follows the column list of an INSERT. */
  function AfterNames(s: Schema, tail: seq<Token>): seq<Token> {
    [Symbol(')'), Word("VALUES")] + (ValuesTokens(|s.cols|) + tail)
  }

  lemma {:induction false} InsertSplit(s: Schema, tail: seq<Token>)
    ensures InsertTokens(s) + tail ==
            [Word("INSERT"), Word("INTO")] +
            ([Name(s.name), Symbol('(')] + (NameTokens(Names(s)) + AfterNames(s, tail)))
  {
    hide ValuesTokens, NameTokens, Names;
    var names, vals := NameTokens(Names(s)), ValuesTokens(|s.cols|);
    assert ColumnsTokens(s) + tail == [Symbol('(')] + (names + AfterNames(s, tail));
  }

  lemma {:induction false} ParseInsertBody(s: Schema, tail: seq<Token>)
    requires s.cols != [] && NoComma(tail)
    ensures var c := ParseConflict(tail);
            ParseInsert([Name(s.name), Symbol('(')] + (NameTokens(Names(s)) + AfterNames(s, tail))) ==
            if c.None? then None else Some(Insert(s.name, Names(s), Numbers(0, |s.cols|), c.value))
  {
    var k, names, mid := |s.cols|, Names(s), AfterNames(s, tail);
    var vals := ValuesTokens(k) + tail;
    ValuesTokensParts(k, tail);
    ParseNameList(names, mid);
    hide ParseConflict, ParseNames, ParseParams, NameTokens, ValuesTokens, Numbers, Names;
    Skip([Name(s.name), Symbol('(')], NameTokens(names) + mid);
    assert mid[..3] == [Symbol(')'), Word("VALUES"), Symbol('(')] && mid[3..] == vals[1..];
    assert ([Symbol(')')] + tail)[1..] == tail;
  }

  /** The conflict clause parses exactly when it has a column to set. */
  lemma {:induction false} ParseConflictTokens(s: Schema)
    requires HasKey(s)
    ensures ParseConflict(ConflictTokens(s)) ==
            if |s.cols| >= 2 then Some(Some(Conflict(KeyName(s), SameSets(NonKey(s))))) else None
  {
    var others, sets := NonKey(s), SetTokens(NonKey(s));
    assert others != [] <==> |s.cols| >= 2;
    if others != [] { ParseSetList(others); } else { assert sets == [] && ParseSets([]).Fail?; }
    hide ParseSets, SetTokens, NonKey, SameSets, KeyName;
    var ts := ConflictTokens(s);
    assert ts == [Word("ON"), Word("CONFLICT"), Symbol('('), Name(KeyName(s)), Symbol(')'), Word("DO"), Word("UPDATE"),
        Word("SET")] + sets;
    assert ts[..3] == [Word("ON"), Word("CONFLICT"), Symbol('(')];
    assert ts[4..8] == [Symbol(')'), Word("DO"), Word("UPDATE"), Word("SET")];
    assert ts[8..] == sets;
  }

  lemma {:induction false} ParseQueryTokens(s: Schema, q: Query)
    requires (q.UpsertRow? ==> HasKey(s)) && s.cols != []
    ensures ParseStmt(QueryTokens(s, q)) == if Printable(s, q) then Some(QueryStmt(s, q)) else None
  {
    match q
    case InsertRow =>
      ParseInsertTokens(s, []);
      hide InsertTokens, ParseStmt;
      assert InsertTokens(s) + [] == InsertTokens(s);
    case UpsertRow =>
      assert NoComma(ConflictTokens(s));
      ParseInsertTokens(s, ConflictTokens(s));
      hide InsertTokens, ConflictTokens, ParseStmt, ParseConflict;
      ParseConflictTokens(s);
    case SelectRows(cond) => ParseSelectTokens(s, cond);
    case CountRows(cond) => ParseCountTokens(s, cond);
    case DeleteRows(cond) => ParseDeleteTokens(s, cond);
    case UpdateField(col, cond) => ParseUpdateTokens(s, col, cond);
    case SelectField(col, cond) => ParseFieldTokens(s, col, cond);
  }

  /**
   * Round trip: in either dialect the text of a query parses, and then to the query itself, if and
   * only if the query is printable.
   */
  lemma {:induction false} QueryRoundTrip(d: Dialect, s: Schema, q: Query)
    requires (q.UpsertRow? ==> HasKey(s)) && PlainQuery(s, q)
    ensures ParseText(QueryText(d, s, q)) == if Printable(s, q) then Some(QueryStmt(s, q)) else None
  {
    hide QueryPieces, QueryTokens, Render, Lex, ParseStmt, Printable, QueryStmt, WellSpaced, Tokens, Holes;
    QueryReads(s, q);
    LexRender(d, 0, QueryPieces(s, q));
    ParseQueryTokens(s, q);
  }

  /** A match-all below a connective prints an empty operand, and the text is no longer a statement. */
  lemma {:induction false} NestedAllDoesNotParse(d: Dialect)
    ensures var s := Schema("t", [Column("a", Int64, 0, 8, true, false, false)], 0);
            var q := CountRows(Some(And(Leaf("a", Eq, IntValue(1)), All)));
            PlainQuery(s, q) && ParseText(QueryText(d, s, q)) == None
  {
    var s := Schema("t", [Column("a", Int64, 0, 8, true, false, false)], 0);
    var q := CountRows(Some(And(Leaf("a", Eq, IntValue(1)), All)));
    hide QueryText, ParseText;
    QueryRoundTrip(d, s, q);
  }

  /** An upsert into a table whose only column is the key prints an empty SET list. */
  lemma {:induction false} KeyOnlyUpsertDoesNotParse(d: Dialect)
    ensures var s := Schema("t", [Column("a", Int64, 0, 8, true, false, false)], 0);
            PlainQuery(s, UpsertRow) && ParseText(QueryText(d, s, UpsertRow)) == None
  {
    var s := Schema("t", [Column("a", Int64, 0, 8, true, false, false)], 0);
    hide QueryText, ParseText;
    QueryRoundTrip(d, s, UpsertRow);
  }
}
