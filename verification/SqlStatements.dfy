/** Whole statements: the pieces the builder emits for each query and the parser that reads them back. */
module SqlStatements {
  import opened Core
  import opened SqlText
  import opened SqlGrammar

  // ---- Statements ------------------------------------------------------------------------

  /** `target = excluded.source` in an upsert. */
  datatype Assignment = Assignment(target: string, source: string)

  datatype Conflict = Conflict(key: string, sets: seq<Assignment>)

  datatype Stmt =
    | Insert(table: string, names: seq<string>, params: seq<nat>, conflict: Option<Conflict>)
    | Select(names: seq<string>, table: string, filter: Option<Expr>)
    | Count(table: string, filter: Option<Expr>)
    | Delete(table: string, filter: Option<Expr>)
    | Update(table: string, col: string, param: nat, filter: Option<Expr>)

  // ---- Lists -----------------------------------------------------------------------------

  function NameList(names: seq<string>): seq<Piece> {
    if names == [] then []
    else if |names| == 1 then [Id(names[0])]
    else [Id(names[0]), Sy(',')] + NameList(names[1..])
  }

  function HoleList(k: nat): seq<Piece> {
    if k == 0 then [] else if k == 1 then [Hole] else [Hole, Sy(',')] + HoleList(k - 1)
  }

  function SetItem(name: string): seq<Piece> {
    [Id(name), Op(Eq), Kw("excluded"), Sy('.'), Id(name)]
  }

  function SetList(names: seq<string>): seq<Piece> {
    if names == [] then []
    else if |names| == 1 then SetItem(names[0])
    else SetItem(names[0]) + ([Sy(',')] + SetList(names[1..]))
  }

  function NameTokens(names: seq<string>): seq<Token> {
    if names == [] then []
    else if |names| == 1 then [Name(names[0])]
    else [Name(names[0]), Symbol(',')] + NameTokens(names[1..])
  }

  function ParamTokens(n: nat, k: nat): seq<Token>
    decreases k
  {
    if k == 0 then []
    else if k == 1 then [Param(n + 1)]
    else [Param(n + 1), Symbol(',')] + ParamTokens(n + 1, k - 1)
  }

  function SetItemTokens(name: string): seq<Token> {
    [Name(name), Compare(Eq), Word("excluded"), Symbol('.'), Name(name)]
  }

  function SetTokens(names: seq<string>): seq<Token> {
    if names == [] then []
    else if |names| == 1 then SetItemTokens(names[0])
    else SetItemTokens(names[0]) + ([Symbol(',')] + SetTokens(names[1..]))
  }

  predicate AllPlain(names: seq<string>) {
    forall i :: 0 <= i < |names| ==> Plain(names[i])
  }

  lemma {:induction false} PairTokens(n: nat, p: Piece, q: Piece)
    requires !p.Space? && !q.Space?
    ensures Tokens(n, [p, q]) == [TokenOf(n, p)[0], TokenOf(After(n, p), q)[0]]
    ensures Holes([p, q]) == Holes([p]) + Holes([q])
  {
    assert [p, q][1..] == [q] && [q][1..] == [];
    assert Tokens(After(n, p), [q]) == TokenOf(After(n, p), q);
  }

  lemma {:induction false} NameListDef(n: nat, names: seq<string>)
    requires names != []
    ensures var head := if |names| == 1 then [Id(names[0])] else [Id(names[0]), Sy(',')];
            && NameList(names) == head + NameList(names[1..])
            && NameTokens(names) == (if |names| == 1 then [Name(names[0])]
                else [Name(names[0]), Symbol(',')]) + NameTokens(names[1..])
            && Holes(head) == 0 && Tokens(n, head) ==
                (if |names| == 1 then [Name(names[0])] else [Name(names[0]), Symbol(',')])
            && (Plain(names[0]) ==> WellSpaced(head))
  {
    PairTokens(n, Id(names[0]), Sy(','));
    assert Tokens(n, [Id(names[0])]) == [Name(names[0])];
    assert Holes([Id(names[0])]) == 0 && Holes([Sy(',')]) == 0;
  }

  lemma {:induction false} NameListEmpty(n: nat)
    ensures NameList([]) == [] && NameTokens([]) == [] && Holes([]) == 0 && Tokens(n, []) == [] && WellSpaced([])
  {
  }

  lemma {:induction false} NameListTokens(n: nat, names: seq<string>)
    ensures Holes(NameList(names)) == 0 && Tokens(n, NameList(names)) == NameTokens(names)
    ensures AllPlain(names) ==> WellSpaced(NameList(names))
    ensures NameList(names) != [] <==> names != []
  {
    hide NameList, NameTokens, Holes, Tokens, WellSpaced, Plain;
    NameListEmpty(n);
    if names != [] {
      var head, tail := if |names| == 1 then [Id(names[0])] else [Id(names[0]), Sy(',')], NameList(names[1..]);
      NameListTokens(n, names[1..]);
      NameListDef(n, names);
      HolesJoin(head, tail);
      TokensJoin(n, head, tail);
      if AllPlain(names) { WellSpacedJoin(head, tail); }
    }
  }

  lemma {:induction false} HoleListDef(n: nat, k: nat)
    requires k > 0
    ensures var head := if k == 1 then [Hole] else [Hole, Sy(',')];
            && HoleList(k) == head + HoleList(k - 1)
            && ParamTokens(n, k) == (if k == 1 then [Param(n + 1)]
                else [Param(n + 1), Symbol(',')]) + ParamTokens(n + 1, k - 1)
            && Holes(head) == 1 && Tokens(n, head) == (if k == 1 then [Param(n + 1)] else [Param(n + 1), Symbol(',')])
            && WellSpaced(head)
  {
    PairTokens(n, Hole, Sy(','));
    assert Tokens(n, [Hole]) == [Param(n + 1)];
    assert Holes([Hole]) == 1 && Holes([Sy(',')]) == 0;
  }

  lemma {:induction false} HoleListEmpty(n: nat)
    ensures HoleList(0) == [] && ParamTokens(n, 0) == [] && Holes([]) == 0 && Tokens(n, []) == [] && WellSpaced([])
  {
  }

  lemma {:induction false} HoleListTokens(n: nat, k: nat)
    ensures Holes(HoleList(k)) == k && Tokens(n, HoleList(k)) == ParamTokens(n, k)
    ensures WellSpaced(HoleList(k))
    decreases k
  {
    hide HoleList, ParamTokens, Holes, Tokens, WellSpaced;
    HoleListEmpty(n);
    if k > 0 {
      var head, tail := if k == 1 then [Hole] else [Hole, Sy(',')], HoleList(k - 1);
      HoleListTokens(n + 1, k - 1);
      HoleListEmpty(n + 1);
      HoleListDef(n, k);
      HolesJoin(head, tail);
      TokensJoin(n, head, tail);
      WellSpacedJoin(head, tail);
    }
  }

  lemma {:induction false} SetItemRead(n: nat, name: string)
    ensures Holes(SetItem(name)) == 0 && Tokens(n, SetItem(name)) == SetItemTokens(name)
    ensures Plain(name) ==> WellSpaced(SetItem(name))
  {
    var ps := SetItem(name);
    var p1, p2, p3 := [Op(Eq), Kw("excluded"), Sy('.'), Id(name)], [Kw("excluded"), Sy('.'), Id(name)],
        [Sy('.'), Id(name)];
    assert ps[1..] == p1 && p1[1..] == p2 && p2[1..] == p3;
    PairTokens(n, Sy('.'), Id(name));
    assert Holes([Sy('.')]) == 0 && Holes([Id(name)]) == 0;
    assert Tokens(n, p2) == [Word("excluded")] + Tokens(n, p3) && Holes(p2) == 0;
    assert Tokens(n, p1) == [Compare(Eq)] + Tokens(n, p2) && Holes(p1) == 0;
    assert Tokens(n, ps) == [Name(name)] + Tokens(n, p1);
  }

  lemma {:induction false} CommaRead(n: nat)
    ensures Holes([Sy(',')]) == 0 && Tokens(n, [Sy(',')]) == [Symbol(',')] && WellSpaced([Sy(',')])
  {
  }

  lemma {:induction false} SetListDef(names: seq<string>)
    requires names != []
    ensures |names| == 1 ==> SetList(names) == SetItem(names[0]) && SetTokens(names) == SetItemTokens(names[0])
    ensures |names| > 1 ==> SetList(names) == SetItem(names[0]) + ([Sy(',')] + SetList(names[1..]))
    ensures |names| > 1 ==> SetTokens(names) == SetItemTokens(names[0]) + ([Symbol(',')] + SetTokens(names[1..]))
    ensures |names| > 1 ==> SetItem(names[0]) != []
  {
  }

  lemma {:induction false} SetListTokens(n: nat, names: seq<string>)
    ensures Holes(SetList(names)) == 0 && Tokens(n, SetList(names)) == SetTokens(names)
    ensures AllPlain(names) ==> WellSpaced(SetList(names))
  {
    if names != [] {
      hide Holes, Tokens, SetItem, SetList, SetTokens, SetItemTokens, WellSpaced, Plain;
      SetItemRead(n, names[0]);
      SetListDef(names);
      if |names| > 1 {
        var comma, tail := [Sy(',')], SetList(names[1..]);
        SetListTokens(n, names[1..]);
        CommaRead(n);
        HolesJoin(comma, tail);
        TokensJoin(n, comma, tail);
        HolesJoin(SetItem(names[0]), comma + tail);
        TokensJoin(n, SetItem(names[0]), comma + tail);
        if AllPlain(names) {
          WellSpacedJoin(comma, tail);
          WellSpacedJoin(SetItem(names[0]), comma + tail);
        }
      }
    }
  }

  // ---- Parsing ---------------------------------------------------------------------------

  function ParseNames(ts: seq<Token>): (r: Parsed<seq<string>>)
    decreases |ts|
  {
    if ts == [] || !ts[0].Name? then Fail
    else if |ts| > 1 && ts[1] == Symbol(',') then
      var more := ParseNames(ts[2..]);
      if more.Fail? then Fail else Got([ts[0].name] + more.value, more.rest)
    else Got([ts[0].name], ts[1..])
  }

  function ParseParams(ts: seq<Token>): (r: Parsed<seq<nat>>)
    decreases |ts|
  {
    if ts == [] || !ts[0].Param? then Fail
    else if |ts| > 1 && ts[1] == Symbol(',') then
      var more := ParseParams(ts[2..]);
      if more.Fail? then Fail else Got([ts[0].k] + more.value, more.rest)
    else Got([ts[0].k], ts[1..])
  }

  function ParseSets(ts: seq<Token>): (r: Parsed<seq<Assignment>>)
    decreases |ts|
  {
    if |ts| < 5 || !ts[0].Name? || ts[1] != Compare(Eq) || ts[2] != Word("excluded") || ts[3] != Symbol('.')
        || !ts[4].Name?
    then Fail
    else if |ts| > 5 && ts[5] == Symbol(',') then
      var more := ParseSets(ts[6..]);
      if more.Fail? then Fail else Got([Assignment(ts[0].name, ts[4].name)] + more.value, more.rest)
    else Got([Assignment(ts[0].name, ts[4].name)], ts[5..])
  }

  /** An optional WHERE clause that ends the statement. */
  function ParseFilter(ts: seq<Token>): Option<Option<Expr>> {
    if ts == [] then Some(None)
    else if ts[0] != Word("WHERE") then None
    else
      var e := ParseOr(ts[1..]);
      if e.Got? && e.rest == [] then Some(Some(e.value)) else None
  }

  /** An optional ON CONFLICT clause that ends the statement. */
  function ParseConflict(ts: seq<Token>): Option<Option<Conflict>> {
    if ts == [] then Some(None)
    else if |ts| >= 8 && ts[..3] == [Word("ON"), Word("CONFLICT"), Symbol('(')] && ts[3].Name?
            && ts[4..8] == [Symbol(')'), Word("DO"), Word("UPDATE"), Word("SET")] then
      var sets := ParseSets(ts[8..]);
      if sets.Got? && sets.rest == [] then Some(Some(Conflict(ts[3].name, sets.value))) else None
    else None
  }

  function ParseInsert(ts: seq<Token>): Option<Stmt> {
    if |ts| < 2 || !ts[0].Name? || ts[1] != Symbol('(') then None
    else
      var a := ParseNames(ts[2..]);
      if a.Fail? || |a.rest| < 3 || a.rest[..3] != [Symbol(')'), Word("VALUES"), Symbol('(')] then None
      else
        var b := ParseParams(a.rest[3..]);
        if b.Fail? || b.rest == [] || b.rest[0] != Symbol(')') then None
        else
          var c := ParseConflict(b.rest[1..]);
          if c.None? then None else Some(Insert(ts[0].name, a.value, b.value, c.value))
  }

  /** What follows SELECT: a row count or a list of columns. */
  function ParseSelect(ts: seq<Token>): Option<Stmt> {
    if |ts| >= 6 && ts[..5] == [Word("COUNT"), Symbol('('), Symbol('*'), Symbol(')'), Word("FROM")] && ts[5].Name? then
      var f := ParseFilter(ts[6..]);
      if f.None? then None else Some(Count(ts[5].name, f.value))
    else
      var a := ParseNames(ts);
      if a.Fail? || |a.rest| < 2 || a.rest[0] != Word("FROM") || !a.rest[1].Name? then None
      else
        var f := ParseFilter(a.rest[2..]);
        if f.None? then None else Some(Select(a.value, a.rest[1].name, f.value))
  }

  function ParseUpdate(ts: seq<Token>): Option<Stmt> {
    if |ts| < 5 || !ts[0].Name? || ts[1] != Word("SET") || !ts[2].Name? || ts[3] != Compare(Eq) || !ts[4].Param?
        then None
    else
      var f := ParseFilter(ts[5..]);
      if f.None? then None else Some(Update(ts[0].name, ts[2].name, ts[4].k, f.value))
  }

  function ParseDelete(ts: seq<Token>): Option<Stmt> {
    if |ts| < 2 || ts[0] != Word("FROM") || !ts[1].Name? then None
    else
      var f := ParseFilter(ts[2..]);
      if f.None? then None else Some(Delete(ts[1].name, f.value))
  }

  function ParseStmt(ts: seq<Token>): Option<Stmt> {
    if ts == [] then None
    else if ts[0] == Word("SELECT") then ParseSelect(ts[1..])
    else if ts[0] == Word("UPDATE") then ParseUpdate(ts[1..])
    else if ts[0] == Word("DELETE") then ParseDelete(ts[1..])
    else if |ts| > 1 && ts[0] == Word("INSERT") && ts[1] == Word("INTO") then ParseInsert(ts[2..])
    else None
  }

  function ParseText(sql: string): Option<Stmt> {
    var ts := Lex(0, sql);
    if ts.None? then None else ParseStmt(ts.value)
  }

  // ---- Lists read back -------------------------------------------------------------------

  predicate NoComma(rest: seq<Token>) { rest == [] || rest[0] != Symbol(',') }

  lemma {:induction false} NameTokensCons(names: seq<string>)
    requires names != []
    ensures |names| == 1 ==> NameTokens(names) == [Name(names[0])] && names == [names[0]]
    ensures |names| > 1 ==> NameTokens(names) == [Name(names[0]), Symbol(',')] + NameTokens(names[1..])
  {
  }

  lemma {:induction false} ParseNameList(names: seq<string>, rest: seq<Token>)
    requires names != [] && NoComma(rest)
    ensures ParseNames(NameTokens(names) + rest) == Got(names, rest)
  {
    var first := names[0];
    NameTokensCons(names);
    hide NameTokens;
    if |names| == 1 {
      ParseLastName(first, rest);
    } else {
      var more := NameTokens(names[1..]) + rest;
      ParseNameList(names[1..], rest);
      hide ParseNames;
      ParseFirstName(first, more, names[1..], rest);
      assert [first] + names[1..] == names;
      assert ([Name(first), Symbol(',')] + NameTokens(names[1..])) + rest == [Name(first), Symbol(',')] + more;
    }
  }

  lemma {:induction false} ParseLastName(first: string, rest: seq<Token>)
    requires NoComma(rest)
    ensures ParseNames([Name(first)] + rest) == Got([first], rest)
  {
    assert ([Name(first)] + rest)[1..] == rest;
  }

  lemma {:induction false} ParseFirstName(first: string, more: seq<Token>, names: seq<string>, rest: seq<Token>)
    requires ParseNames(more) == Got(names, rest)
    ensures ParseNames([Name(first), Symbol(',')] + more) == Got([first] + names, rest)
  {
    assert ([Name(first), Symbol(',')] + more)[2..] == more;
  }

  /** The numbers n+1, ..., n+k. */
  function Numbers(n: nat, k: nat): (s: seq<nat>)
    ensures |s| == k && forall i :: 0 <= i < k ==> s[i] == n + 1 + i
    decreases k
  {
    if k == 0 then [] else [n + 1] + Numbers(n + 1, k - 1)
  }

  lemma {:induction false} ParseParamList(n: nat, k: nat, rest: seq<Token>)
    requires k > 0 && NoComma(rest)
    ensures ParseParams(ParamTokens(n, k) + rest) == Got(Numbers(n, k), rest)
    decreases k
  {
    var ts := ParamTokens(n, k) + rest;
    if k == 1 {
      assert ts[1..] == rest && Numbers(n, 1) == [n + 1];
    } else {
      ParseParamList(n + 1, k - 1, rest);
      assert ts[2..] == ParamTokens(n + 1, k - 1) + rest;
    }
  }

  /** Each column set to its excluded value. */
  function SameSets(names: seq<string>): (s: seq<Assignment>)
    ensures |s| == |names| && forall i :: 0 <= i < |s| ==> s[i] == Assignment(names[i], names[i])
  {
    if names == [] then [] else [Assignment(names[0], names[0])] + SameSets(names[1..])
  }

  lemma {:induction false} ParseSetList(names: seq<string>)
    requires names != []
    ensures ParseSets(SetTokens(names)) == Got(SameSets(names), [])
  {
    var ts := SetTokens(names);
    if |names| == 1 {
      assert ts[5..] == [] && SameSets(names) == [Assignment(names[0], names[0])];
    } else {
      ParseSetList(names[1..]);
      assert ts[6..] == SetTokens(names[1..]);
      assert ts[5] == Symbol(',');
    }
  }
}
