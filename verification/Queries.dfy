/** The queries of the library as text: what each one prints, and that the text means the query. */
module Queries {
  import opened Core
  import opened SqlText
  import opened Conditions
  import opened SqlGrammar
  import opened SqlStatements

  /** A query on one schema's table. */
  datatype Query =
    | InsertRow
    | UpsertRow
    | SelectRows(cond: Option<Condition>)
    | CountRows(cond: Option<Condition>)
    | DeleteRows(cond: Option<Condition>)
    | UpdateField(col: string, cond: Option<Condition>)
    | SelectField(col: string, cond: Option<Condition>)

  function QueryCond(q: Query): Option<Condition> {
    if q.InsertRow? || q.UpsertRow? then None else q.cond
  }

  function Names(s: Schema): (names: seq<string>)
    ensures |names| == |s.cols| && forall i :: 0 <= i < |names| ==> names[i] == s.cols[i].name
  {
    seq(|s.cols|, i requires 0 <= i < |s.cols| => s.cols[i].name)
  }

  predicate HasKey(s: Schema) { 0 <= s.pkIndex < |s.cols| }

  function KeyName(s: Schema): string
    requires HasKey(s)
  {
    s.cols[s.pkIndex].name
  }

  /** The columns an upsert overwrites: all but the key. */
  function NonKey(s: Schema): seq<string>
    requires HasKey(s)
  {
    Names(s)[..s.pkIndex] + Names(s)[s.pkIndex + 1..]
  }

  // ---- Printing --------------------------------------------------------------------------

  /** Keywords, each followed by a space. */
  function Kws(words: seq<string>): seq<Piece> {
    if words == [] then [] else [Kw(words[0]), Space] + Kws(words[1..])
  }

  function WherePieces(cond: Option<Condition>): seq<Piece> {
    if NeedsWhere(cond) then [Space] + (Kws(["WHERE"]) + CondPieces(cond.value)) else []
  }

  /** `(?,...,?)` with `k` placeholders. */
  function ValuesPieces(k: nat): seq<Piece> {
    [Sy('(')] + (HoleList(k) + [Sy(')')])
  }

  function ColumnsPieces(s: Schema): seq<Piece> {
    [Sy('(')] + (NameList(Names(s)) + ([Sy(')'), Space] + (Kws(["VALUES"]) + ValuesPieces(|s.cols|))))
  }

  function InsertPieces(s: Schema): seq<Piece> {
    Kws(["INSERT", "INTO"]) + ([Id(s.name), Space] + ColumnsPieces(s))
  }

  function ConflictPieces(s: Schema): seq<Piece>
    requires HasKey(s)
  {
    [Space] + (Kws(["ON"]) + ([Kw("CONFLICT"), Sy('(')] + ([Id(KeyName(s))] + DoUpdatePieces(s))))
  }

  function DoUpdatePieces(s: Schema): seq<Piece>
    requires HasKey(s)
  {
    [Sy(')'), Space] + (Kws(["DO", "UPDATE", "SET"]) + SetList(NonKey(s)))
  }

  function FromPieces(name: string, cond: Option<Condition>): seq<Piece> {
    Kws(["FROM"]) + ([Id(name)] + WherePieces(cond))
  }

  function SelectPieces(s: Schema, cond: Option<Condition>): seq<Piece> {
    Kws(["SELECT"]) + (NameList(Names(s)) + ([Space] + FromPieces(s.name, cond)))
  }

  function CountHeadPieces(): seq<Piece> {
    [Kw("COUNT"), Sy('(')] + ([Sy('*')] + [Sy(')'), Space])
  }

  function CountPieces(s: Schema, cond: Option<Condition>): seq<Piece> {
    Kws(["SELECT"]) + (CountHeadPieces() + FromPieces(s.name, cond))
  }

  function DeletePieces(s: Schema, cond: Option<Condition>): seq<Piece> {
    Kws(["DELETE", "FROM"]) + ([Id(s.name)] + WherePieces(cond))
  }

  function SetOnePieces(col: string, cond: Option<Condition>): seq<Piece> {
    [Id(col), Op(Eq), Hole] + WherePieces(cond)
  }

  function UpdatePieces(s: Schema, col: string, cond: Option<Condition>): seq<Piece> {
    Kws(["UPDATE"]) + ([Id(s.name), Space] + (Kws(["SET"]) + SetOnePieces(col, cond)))
  }

  function FieldPieces(s: Schema, col: string, cond: Option<Condition>): seq<Piece> {
    Kws(["SELECT"]) + ([Id(col), Space] + FromPieces(s.name, cond))
  }

  function QueryPieces(s: Schema, q: Query): seq<Piece>
    requires q.UpsertRow? ==> HasKey(s)
  {
    match q
    case InsertRow => InsertPieces(s)
    case UpsertRow => InsertPieces(s) + ConflictPieces(s)
    case SelectRows(cond) => SelectPieces(s, cond)
    case CountRows(cond) => CountPieces(s, cond)
    case DeleteRows(cond) => DeletePieces(s, cond)
    case UpdateField(col, cond) => UpdatePieces(s, col, cond)
    case SelectField(col, cond) => FieldPieces(s, col, cond)
  }

  /** The SQL text of a query. */
  function QueryText(d: Dialect, s: Schema, q: Query): string
    requires q.UpsertRow? ==> HasKey(s)
  {
    Render(d, 0, QueryPieces(s, q))
  }

  ghost predicate PlainWhere(cond: Option<Condition>) {
    NeedsWhere(cond) ==> PlainColumns(cond.value)
  }

  /** Names that can be quoted as they stand: what registration guarantees. */
  ghost predicate PlainQuery(s: Schema, q: Query) {
    && Plain(s.name) && AllPlain(Names(s)) && s.cols != []
    && (q.UpdateField? || q.SelectField? ==> Plain(q.col))
    && PlainWhere(QueryCond(q))
  }

  // ---- Tokens ----------------------------------------------------------------------------

  function WhereTokens(n: nat, cond: Option<Condition>): seq<Token> {
    if NeedsWhere(cond) then [Word("WHERE")] + CondTokens(n, cond.value) else []
  }

  function ConflictTokens(s: Schema): seq<Token>
    requires HasKey(s)
  {
    [Word("ON")] + ([Word("CONFLICT"), Symbol('(')] + ([Name(KeyName(s))] + DoUpdateTokens(s)))
  }

  function DoUpdateTokens(s: Schema): seq<Token>
    requires HasKey(s)
  {
    [Symbol(')')] + ([Word("DO"), Word("UPDATE"), Word("SET")] + SetTokens(NonKey(s)))
  }

  function ValuesTokens(k: nat): seq<Token> {
    [Symbol('(')] + (ParamTokens(0, k) + [Symbol(')')])
  }

  function ColumnsTokens(s: Schema): seq<Token> {
    [Symbol('(')] + (NameTokens(Names(s)) + ([Symbol(')')] + ([Word("VALUES")] + ValuesTokens(|s.cols|))))
  }

  function InsertTokens(s: Schema): seq<Token> {
    [Word("INSERT"), Word("INTO")] + ([Name(s.name)] + ColumnsTokens(s))
  }

  function FromTokens(n: nat, name: string, cond: Option<Condition>): seq<Token> {
    [Word("FROM")] + ([Name(name)] + WhereTokens(n, cond))
  }

  function CountHead(): seq<Token> {
    [Word("COUNT"), Symbol('(')] + ([Symbol('*')] + [Symbol(')')])
  }

  function SetOneTokens(col: string, cond: Option<Condition>): seq<Token> {
    [Name(col), Compare(Eq), Param(1)] + WhereTokens(1, cond)
  }

  function SelectTokens(s: Schema, cond: Option<Condition>): seq<Token> {
    [Word("SELECT")] + (NameTokens(Names(s)) + FromTokens(0, s.name, cond))
  }

  function CountTokens(s: Schema, cond: Option<Condition>): seq<Token> {
    [Word("SELECT")] + (CountHead() + FromTokens(0, s.name, cond))
  }

  function DeleteTokens(s: Schema, cond: Option<Condition>): seq<Token> {
    [Word("DELETE"), Word("FROM")] + ([Name(s.name)] + WhereTokens(0, cond))
  }

  function UpdateTokens(s: Schema, col: string, cond: Option<Condition>): seq<Token> {
    [Word("UPDATE")] + ([Name(s.name)] + ([Word("SET")] + SetOneTokens(col, cond)))
  }

  function FieldTokens(s: Schema, col: string, cond: Option<Condition>): seq<Token> {
    [Word("SELECT")] + ([Name(col)] + FromTokens(0, s.name, cond))
  }

  function QueryTokens(s: Schema, q: Query): seq<Token>
    requires q.UpsertRow? ==> HasKey(s)
  {
    match q
    case InsertRow => InsertTokens(s)
    case UpsertRow => InsertTokens(s) + ConflictTokens(s)
    case SelectRows(cond) => SelectTokens(s, cond)
    case CountRows(cond) => CountTokens(s, cond)
    case DeleteRows(cond) => DeleteTokens(s, cond)
    case UpdateField(col, cond) => UpdateTokens(s, col, cond)
    case SelectField(col, cond) => FieldTokens(s, col, cond)
  }

  /** `ps` is well spaced, has `h` placeholders and, after `n` earlier ones, reads as `ts`. */
  ghost predicate Reads(n: nat, ps: seq<Piece>, h: nat, ts: seq<Token>) {
    Holes(ps) == h && Tokens(n, ps) == ts && WellSpaced(ps)
  }

  /** Two lists read one after the other; a space or a symbol must stand at the seam. */
  lemma {:induction false} ReadsJoin(n: nat, a: seq<Piece>, h: nat, ta: seq<Token>, b: seq<Piece>, k: nat,
      tb: seq<Token>)
    requires Reads(n, a, h, ta) && Reads(n + h, b, k, tb)
    requires (a != [] && (a[|a| - 1].Space? || a[|a| - 1].Sy?)) || b == [] || b[0].Space? || b[0].Sy?
    ensures Reads(n, a + b, h + k, ta + tb)
  {
    hide Holes, Tokens, WellSpaced;
    HolesJoin(a, b);
    TokensJoin(n, a, b);
    WellSpacedJoin(a, b);
  }

  lemma {:induction false} ReadsOne(n: nat, p: Piece)
    requires PieceOk(p)
    ensures Reads(n, [p], if p.Hole? then 1 else 0, TokenOf(n, p))
  {
    assert [p][1..] == [];
  }

  lemma {:induction false} ReadsTwo(n: nat, p: Piece, q: Piece)
    requires PieceOk(p) && PieceOk(q) && Apart(p, q) && !p.Hole?
    ensures Reads(n, [p, q], if q.Hole? then 1 else 0, TokenOf(n, p) + TokenOf(n, q))
  {
    assert [p, q][1..] == [q] && [q][1..] == [];
    assert Tokens(n, [q]) == TokenOf(n, q) && Holes([q]) == if q.Hole? then 1 else 0;
  }

  lemma {:induction false} ReadsSpaced(n: nat, p: Piece)
    requires PieceOk(p) && !p.Hole?
    ensures Reads(n, [p, Space], 0, TokenOf(n, p))
  {
    ReadsTwo(n, p, Space);
    assert TokenOf(n, p) + [] == TokenOf(n, p);
  }

  /** A space in front changes nothing that is read. */
  lemma {:induction false} ReadsAfterSpace(n: nat, ps: seq<Piece>, h: nat, ts: seq<Token>)
    requires Reads(n, ps, h, ts)
    ensures Reads(n, [Space] + ps, h, ts)
  {
    ReadsOne(n, Space);
    hide Reads;
    ReadsJoin(n, [Space], 0, [], ps, h, ts);
    assert [] + ts == ts;
  }

  lemma {:induction false} ReadsKw(n: nat, w: string)
    requires PieceOk(Kw(w))
    ensures Reads(n, Kws([w]), 0, [Word(w)]) && Kws([w]) == [Kw(w), Space]
  {
    assert [w][1..] == [] && Kws([w]) == [Kw(w), Space];
    ReadsTwo(n, Kw(w), Space);
  }

  lemma {:induction false} ReadsKw2(n: nat, v: string, w: string)
    requires PieceOk(Kw(v)) && PieceOk(Kw(w))
    ensures Reads(n, Kws([v, w]), 0, [Word(v), Word(w)])
    ensures |Kws([v, w])| == 4 && Kws([v, w])[3] == Space && Kws([v, w])[0] == Kw(v)
  {
    assert [v, w][1..] == [w];
    ReadsKw(n, w);
    ReadsTwo(n, Kw(v), Space);
    hide Reads, PieceOk;
    ReadsJoin(n, [Kw(v), Space], 0, [Word(v)], Kws([w]), 0, [Word(w)]);
    assert [Word(v)] + [Word(w)] == [Word(v), Word(w)];
  }

  lemma {:induction false} ReadsKw3(n: nat, u: string, v: string, w: string)
    requires PieceOk(Kw(u)) && PieceOk(Kw(v)) && PieceOk(Kw(w))
    ensures Reads(n, Kws([u, v, w]), 0, [Word(u), Word(v), Word(w)])
    ensures |Kws([u, v, w])| == 6 && Kws([u, v, w])[5] == Space
  {
    assert [u, v, w][1..] == [v, w];
    ReadsKw2(n, v, w);
    ReadsTwo(n, Kw(u), Space);
    hide Reads, PieceOk;
    ReadsJoin(n, [Kw(u), Space], 0, [Word(u)], Kws([v, w]), 0, [Word(v), Word(w)]);
    assert [Word(u)] + [Word(v), Word(w)] == [Word(u), Word(v), Word(w)];
  }

  /** The fixed words of the builder are words of letters. */
  lemma {:induction false} KeywordsOk()
    ensures PieceOk(Kw("INSERT")) && PieceOk(Kw("INTO")) && PieceOk(Kw("VALUES")) && PieceOk(Kw("SELECT"))
    ensures PieceOk(Kw("COUNT")) && PieceOk(Kw("FROM")) && PieceOk(Kw("WHERE")) && PieceOk(Kw("DELETE"))
    ensures PieceOk(Kw("UPDATE")) && PieceOk(Kw("SET")) && PieceOk(Kw("ON")) && PieceOk(Kw("CONFLICT"))
    ensures PieceOk(Kw("DO"))
  {
  }

  lemma {:induction false} ReadsId(n: nat, name: string)
    requires Plain(name)
    ensures Reads(n, [Id(name)], 0, [Name(name)]) && Reads(n, [Id(name), Space], 0, [Name(name)])
  {
    hide Reads, Plain;
    ReadsOne(n, Id(name));
    ReadsSpaced(n, Id(name));
  }

  lemma {:induction false} ReadsParens()
    ensures forall n :: Reads(n, [Sy('(')], 0, [Symbol('(')])
    ensures forall n :: Reads(n, [Sy(')'), Space], 0, [Symbol(')')])
  {
    forall n: nat ensures Reads(n, [Sy('(')], 0, [Symbol('(')]) { ReadsOne(n, Sy('(')); }
    forall n: nat ensures Reads(n, [Sy(')'), Space], 0, [Symbol(')')]) { ReadsSpaced(n, Sy(')')); }
  }

  lemma {:induction false} ReadsWordParen(n: nat, w: string)
    requires PieceOk(Kw(w))
    ensures Reads(n, [Kw(w), Sy('(')], 0, [Word(w), Symbol('(')])
  {
    hide Reads;
    ReadsTwo(n, Kw(w), Sy('('));
    assert [Word(w)] + [Symbol('(')] == [Word(w), Symbol('(')];
  }

  lemma {:induction false} WhereReads(n: nat, cond: Option<Condition>)
    requires PlainWhere(cond)
    ensures Reads(n, WherePieces(cond), |WhereLeaves(cond)|, WhereTokens(n, cond))
    ensures WherePieces(cond) == [] || WherePieces(cond)[0] == Space
  {
    if NeedsWhere(cond) {
      var c := cond.value;
      KeywordsOk();
      ReadsKw(n, "WHERE");
      CondPiecesTokens(n, c);
      CondSpaced(c);
      assert Reads(n, CondPieces(c), |Leaves(c)|, CondTokens(n, c));
      hide Reads, CondPieces, CondTokens, Kws;
      ReadsJoin(n, Kws(["WHERE"]), 0, [Word("WHERE")], CondPieces(c), |Leaves(c)|, CondTokens(n, c));
      ReadsAfterSpace(n, Kws(["WHERE"]) + CondPieces(c), |Leaves(c)|, [Word("WHERE")] + CondTokens(n, c));
    }
  }

  lemma {:induction false} TableReads(n: nat, name: string, cond: Option<Condition>)
    requires Plain(name) && PlainWhere(cond)
    ensures Reads(n, [Id(name)] + WherePieces(cond), |WhereLeaves(cond)|, [Name(name)] + WhereTokens(n, cond))
  {
    WhereReads(n, cond);
    ReadsOne(n, Id(name));
    hide Reads, WherePieces, WhereTokens;
    ReadsJoin(n, [Id(name)], 0, [Name(name)], WherePieces(cond), |WhereLeaves(cond)|, WhereTokens(n, cond));
  }

  // Each statement is read from the inside out; the functions that print and tokenise it are unfolded
  // only by the `...Def` lemmas.

  lemma {:induction false} FromDef(n: nat, name: string, cond: Option<Condition>)
    ensures FromPieces(name, cond) == Kws(["FROM"]) + ([Id(name)] + WherePieces(cond))
    ensures FromTokens(n, name, cond) == [Word("FROM")] + ([Name(name)] + WhereTokens(n, cond))
  {
  }

  lemma {:induction false} FromReads(n: nat, name: string, cond: Option<Condition>)
    requires Plain(name) && PlainWhere(cond)
    ensures Reads(n, FromPieces(name, cond), |WhereLeaves(cond)|, FromTokens(n, name, cond))
  {
    hide *;
    KeywordsOk();
    TableReads(n, name, cond);
    ReadsKw(n, "FROM");
    ReadsJoin(n, Kws(["FROM"]), 0, [Word("FROM")],
              [Id(name)] + WherePieces(cond), |WhereLeaves(cond)|, [Name(name)] + WhereTokens(n, cond));
    FromDef(n, name, cond);
  }

  function QueryValues(s: Schema, q: Query): nat {
    match q
    case InsertRow => |s.cols|
    case UpsertRow => |s.cols|
    case UpdateField(_, cond) => 1 + |WhereLeaves(cond)|
    case _ => |WhereLeaves(QueryCond(q))|
  }

  lemma {:induction false} SelectDef(s: Schema, cond: Option<Condition>)
    ensures SelectPieces(s, cond) == Kws(["SELECT"]) + (NameList(Names(s)) + ([Space] + FromPieces(s.name, cond)))
    ensures SelectTokens(s, cond) == [Word("SELECT")] + (NameTokens(Names(s)) + FromTokens(0, s.name, cond))
  {
  }

  lemma {:induction false} ReadsNames(n: nat, names: seq<string>)
    requires AllPlain(names)
    ensures Reads(n, NameList(names), 0, NameTokens(names))
  {
    NameListTokens(n, names);
  }

  lemma {:induction false} SelectReads(s: Schema, cond: Option<Condition>)
    requires Plain(s.name) && AllPlain(Names(s)) && PlainWhere(cond)
    ensures Reads(0, SelectPieces(s, cond), |WhereLeaves(cond)|, SelectTokens(s, cond))
  {
    hide *;
    var names, h := Names(s), |WhereLeaves(cond)|;
    var fromPs, fromTs := FromPieces(s.name, cond), FromTokens(0, s.name, cond);
    KeywordsOk();
    FromReads(0, s.name, cond);
    ReadsAfterSpace(0, fromPs, h, fromTs);
    ReadsNames(0, names);
    ReadsKw(0, "SELECT");
    ReadsJoin(0, NameList(names), 0, NameTokens(names), [Space] + fromPs, h, fromTs);
    ReadsJoin(0, Kws(["SELECT"]), 0, [Word("SELECT")], NameList(names) + ([Space] + fromPs), h,
        NameTokens(names) + fromTs);
    SelectDef(s, cond);
  }

  lemma {:induction false} CountHeadReads()
    ensures Reads(0, CountHeadPieces(), 0, CountHead())
    ensures |CountHeadPieces()| == 5 && CountHeadPieces()[4] == Space
  {
    ReadsParens();
    ReadsOne(0, Sy('*'));
    KeywordsOk();
    ReadsWordParen(0, "COUNT");
    hide Reads;
    ReadsJoin(0, [Sy('*')], 0, [Symbol('*')], [Sy(')'), Space], 0, [Symbol(')')]);
    ReadsJoin(0, [Kw("COUNT"), Sy('(')], 0, [Word("COUNT"), Symbol('(')],
              [Sy('*')] + [Sy(')'), Space], 0, [Symbol('*')] + [Symbol(')')]);
  }

  lemma {:induction false} CountDef(s: Schema, cond: Option<Condition>)
    ensures CountPieces(s, cond) == Kws(["SELECT"]) + (CountHeadPieces() + FromPieces(s.name, cond))
    ensures CountTokens(s, cond) == [Word("SELECT")] + (CountHead() + FromTokens(0, s.name, cond))
  {
  }

  lemma {:induction false} CountReads(s: Schema, cond: Option<Condition>)
    requires Plain(s.name) && PlainWhere(cond)
    ensures Reads(0, CountPieces(s, cond), |WhereLeaves(cond)|, CountTokens(s, cond))
  {
    hide *;
    var h := |WhereLeaves(cond)|;
    var fromPs, fromTs := FromPieces(s.name, cond), FromTokens(0, s.name, cond);
    KeywordsOk();
    FromReads(0, s.name, cond);
    CountHeadReads();
    ReadsKw(0, "SELECT");
    ReadsJoin(0, CountHeadPieces(), 0, CountHead(), fromPs, h, fromTs);
    ReadsJoin(0, Kws(["SELECT"]), 0, [Word("SELECT")], CountHeadPieces() + fromPs, h, CountHead() + fromTs);
    CountDef(s, cond);
  }

  lemma {:induction false} DeleteDef(s: Schema, cond: Option<Condition>)
    ensures DeletePieces(s, cond) == Kws(["DELETE", "FROM"]) + ([Id(s.name)] + WherePieces(cond))
    ensures DeleteTokens(s, cond) == [Word("DELETE"), Word("FROM")] + ([Name(s.name)] + WhereTokens(0, cond))
  {
  }

  lemma {:induction false} DeleteReads(s: Schema, cond: Option<Condition>)
    requires Plain(s.name) && PlainWhere(cond)
    ensures Reads(0, DeletePieces(s, cond), |WhereLeaves(cond)|, DeleteTokens(s, cond))
  {
    hide *;
    KeywordsOk();
    TableReads(0, s.name, cond);
    ReadsKw2(0, "DELETE", "FROM");
    ReadsJoin(0, Kws(["DELETE", "FROM"]), 0, [Word("DELETE"), Word("FROM")],
              [Id(s.name)] + WherePieces(cond), |WhereLeaves(cond)|, [Name(s.name)] + WhereTokens(0, cond));
    DeleteDef(s, cond);
  }

  lemma {:induction false} FieldDef(s: Schema, col: string, cond: Option<Condition>)
    ensures FieldPieces(s, col, cond) == Kws(["SELECT"]) + ([Id(col), Space] + FromPieces(s.name, cond))
    ensures FieldTokens(s, col, cond) == [Word("SELECT")] + ([Name(col)] + FromTokens(0, s.name, cond))
  {
  }

  lemma {:induction false} FieldReads(s: Schema, col: string, cond: Option<Condition>)
    requires Plain(s.name) && Plain(col) && PlainWhere(cond)
    ensures Reads(0, FieldPieces(s, col, cond), |WhereLeaves(cond)|, FieldTokens(s, col, cond))
  {
    hide *;
    var h := |WhereLeaves(cond)|;
    var fromPs, fromTs := FromPieces(s.name, cond), FromTokens(0, s.name, cond);
    KeywordsOk();
    FromReads(0, s.name, cond);
    ReadsId(0, col);
    ReadsKw(0, "SELECT");
    ReadsJoin(0, [Id(col), Space], 0, [Name(col)], fromPs, h, fromTs);
    ReadsJoin(0, Kws(["SELECT"]), 0, [Word("SELECT")], [Id(col), Space] + fromPs, h, [Name(col)] + fromTs);
    FieldDef(s, col, cond);
  }

  lemma {:induction false} SetOneReads(col: string, cond: Option<Condition>)
    requires Plain(col) && PlainWhere(cond)
    ensures Reads(0, SetOnePieces(col, cond), 1 + |WhereLeaves(cond)|, SetOneTokens(col, cond))
  {
    WhereReads(1, cond);
    ReadsTwo(0, Op(Eq), Hole);
    var ps := [Id(col), Op(Eq), Hole];
    assert ps[1..] == [Op(Eq), Hole];
    assert Tokens(0, ps) == [Name(col)] + Tokens(0, ps[1..]) && Holes(ps) == Holes(ps[1..]);
    assert Reads(0, ps, 1, [Name(col), Compare(Eq), Param(1)]);
    hide Reads, WherePieces, WhereTokens;
    ReadsJoin(0, ps, 1, [Name(col), Compare(Eq), Param(1)], WherePieces(cond), |WhereLeaves(cond)|,
        WhereTokens(1, cond));
  }

  lemma {:induction false} UpdateDef(s: Schema, col: string, cond: Option<Condition>)
    ensures UpdatePieces(s, col, cond) ==
            Kws(["UPDATE"]) + ([Id(s.name), Space] + (Kws(["SET"]) + SetOnePieces(col, cond)))
    ensures UpdateTokens(s, col, cond) ==
            [Word("UPDATE")] + ([Name(s.name)] + ([Word("SET")] + SetOneTokens(col, cond)))
  {
  }

  lemma {:induction false} UpdateReads(s: Schema, col: string, cond: Option<Condition>)
    requires Plain(s.name) && Plain(col) && PlainWhere(cond)
    ensures Reads(0, UpdatePieces(s, col, cond), 1 + |WhereLeaves(cond)|, UpdateTokens(s, col, cond))
  {
    hide *;
    var h := 1 + |WhereLeaves(cond)|;
    var setPs, setTs := SetOnePieces(col, cond), SetOneTokens(col, cond);
    KeywordsOk();
    SetOneReads(col, cond);
    ReadsKw(0, "SET");
    ReadsId(0, s.name);
    ReadsKw(0, "UPDATE");
    ReadsJoin(0, Kws(["SET"]), 0, [Word("SET")], setPs, h, setTs);
    ReadsJoin(0, [Id(s.name), Space], 0, [Name(s.name)], Kws(["SET"]) + setPs, h, [Word("SET")] + setTs);
    ReadsJoin(0, Kws(["UPDATE"]), 0, [Word("UPDATE")],
              [Id(s.name), Space] + (Kws(["SET"]) + setPs), h, [Name(s.name)] + ([Word("SET")] + setTs));
    UpdateDef(s, col, cond);
  }

  lemma {:induction false} ValuesReads(k: nat)
    ensures Reads(0, ValuesPieces(k), k, ValuesTokens(k))
    ensures ValuesPieces(k) != [] && ValuesPieces(k)[0] == Sy('(')
  {
    HoleListTokens(0, k);
    assert Reads(0, HoleList(k), k, ParamTokens(0, k));
    ReadsOne(k, Sy(')'));
    ReadsOne(0, Sy('('));
    hide Reads, HoleList, ParamTokens;
    ReadsJoin(0, HoleList(k), k, ParamTokens(0, k), [Sy(')')], 0, [Symbol(')')]);
    ReadsJoin(0, [Sy('(')], 0, [Symbol('(')], HoleList(k) + [Sy(')')], k, ParamTokens(0, k) + [Symbol(')')]);
  }

  lemma {:induction false} InsertDef(s: Schema)
    ensures ColumnsPieces(s) ==
            [Sy('(')] + (NameList(Names(s)) + ([Sy(')'), Space] + (Kws(["VALUES"]) + ValuesPieces(|s.cols|))))
    ensures ColumnsTokens(s) ==
            [Symbol('(')] + (NameTokens(Names(s)) + ([Symbol(')')] + ([Word("VALUES")] + ValuesTokens(|s.cols|))))
    ensures InsertPieces(s) == Kws(["INSERT", "INTO"]) + ([Id(s.name), Space] + ColumnsPieces(s))
    ensures InsertTokens(s) == [Word("INSERT"), Word("INTO")] + ([Name(s.name)] + ColumnsTokens(s))
  {
  }

  lemma {:induction false} ColumnsReads(s: Schema)
    requires AllPlain(Names(s))
    ensures Reads(0, ColumnsPieces(s), |s.cols|, ColumnsTokens(s))
  {
    hide *;
    var k, names := |s.cols|, Names(s);
    KeywordsOk();
    ValuesReads(k);
    ReadsKw(0, "VALUES");
    ReadsParens();
    ReadsNames(0, names);
    ReadsJoin(0, Kws(["VALUES"]), 0, [Word("VALUES")], ValuesPieces(k), k, ValuesTokens(k));
    var p1, t1 := Kws(["VALUES"]) + ValuesPieces(k), [Word("VALUES")] + ValuesTokens(k);
    ReadsJoin(0, [Sy(')'), Space], 0, [Symbol(')')], p1, k, t1);
    var p2, t2 := [Sy(')'), Space] + p1, [Symbol(')')] + t1;
    ReadsJoin(0, NameList(names), 0, NameTokens(names), p2, k, t2);
    ReadsJoin(0, [Sy('(')], 0, [Symbol('(')], NameList(names) + p2, k, NameTokens(names) + t2);
    InsertDef(s);
  }

  lemma {:induction false} InsertReads(s: Schema)
    requires Plain(s.name) && AllPlain(Names(s))
    ensures Reads(0, InsertPieces(s), |s.cols|, InsertTokens(s))
  {
    hide *;
    KeywordsOk();
    ColumnsReads(s);
    ReadsId(0, s.name);
    ReadsKw2(0, "INSERT", "INTO");
    ReadsJoin(0, [Id(s.name), Space], 0, [Name(s.name)], ColumnsPieces(s), |s.cols|, ColumnsTokens(s));
    ReadsJoin(0, Kws(["INSERT", "INTO"]), 0, [Word("INSERT"), Word("INTO")],
              [Id(s.name), Space] + ColumnsPieces(s), |s.cols|, [Name(s.name)] + ColumnsTokens(s));
    InsertDef(s);
  }

  lemma {:induction false} ConflictDef(s: Schema)
    requires HasKey(s)
    ensures ConflictPieces(s) ==
            [Space] + (Kws(["ON"]) + ([Kw("CONFLICT"), Sy('(')] + ([Id(KeyName(s))] + DoUpdatePieces(s))))
    ensures ConflictTokens(s) ==
            [Word("ON")] + ([Word("CONFLICT"), Symbol('(')] + ([Name(KeyName(s))] + DoUpdateTokens(s)))
    ensures DoUpdatePieces(s) == [Sy(')'), Space] + (Kws(["DO", "UPDATE", "SET"]) + SetList(NonKey(s)))
    ensures DoUpdateTokens(s) == [Symbol(')')] + ([Word("DO"), Word("UPDATE"), Word("SET")] + SetTokens(NonKey(s)))
    ensures DoUpdatePieces(s)[0] == Sy(')')
  {
  }

  lemma {:induction false} ReadsSets(n: nat, names: seq<string>)
    requires AllPlain(names)
    ensures Reads(n, SetList(names), 0, SetTokens(names))
  {
    SetListTokens(n, names);
  }

  lemma {:induction false} NonKeyPlain(s: Schema)
    requires HasKey(s) && AllPlain(Names(s))
    ensures AllPlain(NonKey(s)) && Plain(KeyName(s))
  {
    hide Plain;
    assert Names(s)[s.pkIndex] == KeyName(s);
  }

  lemma {:induction false} DoUpdateReads(s: Schema, n: nat)
    requires HasKey(s) && AllPlain(NonKey(s))
    ensures Reads(n, DoUpdatePieces(s), 0, DoUpdateTokens(s))
  {
    hide *;
    var others := NonKey(s);
    KeywordsOk();
    ReadsSets(n, others);
    ReadsKw3(n, "DO", "UPDATE", "SET");
    ReadsParens();
    ReadsJoin(n, Kws(["DO", "UPDATE", "SET"]), 0, [Word("DO"), Word("UPDATE"), Word("SET")], SetList(others), 0,
        SetTokens(others));
    ReadsJoin(n, [Sy(')'), Space], 0, [Symbol(')')],
              Kws(["DO", "UPDATE", "SET"]) + SetList(others), 0,
                  [Word("DO"), Word("UPDATE"), Word("SET")] + SetTokens(others));
    ConflictDef(s);
  }

  lemma {:induction false} ConflictReads(s: Schema, n: nat)
    requires HasKey(s) && AllPlain(Names(s))
    ensures Reads(n, ConflictPieces(s), 0, ConflictTokens(s))
    ensures ConflictPieces(s) != [] && ConflictPieces(s)[0] == Space
  {
    hide *;
    var key := KeyName(s);
    NonKeyPlain(s);
    KeywordsOk();
    DoUpdateReads(s, n);
    ReadsId(n, key);
    ReadsWordParen(n, "CONFLICT");
    ReadsKw(n, "ON");
    ConflictDef(s);
    ReadsJoin(n, [Id(key)], 0, [Name(key)], DoUpdatePieces(s), 0, DoUpdateTokens(s));
    var p3, t3 := [Id(key)] + DoUpdatePieces(s), [Name(key)] + DoUpdateTokens(s);
    ReadsJoin(n, [Kw("CONFLICT"), Sy('(')], 0, [Word("CONFLICT"), Symbol('(')], p3, 0, t3);
    var p4, t4 := [Kw("CONFLICT"), Sy('(')] + p3, [Word("CONFLICT"), Symbol('(')] + t3;
    ReadsJoin(n, Kws(["ON"]), 0, [Word("ON")], p4, 0, t4);
    ReadsAfterSpace(n, Kws(["ON"]) + p4, 0, [Word("ON")] + t4);
  }

  lemma {:induction false} UpsertReads(s: Schema)
    requires HasKey(s) && Plain(s.name) && AllPlain(Names(s))
    ensures Reads(0, InsertPieces(s) + ConflictPieces(s), |s.cols|, InsertTokens(s) + ConflictTokens(s))
  {
    hide *;
    InsertReads(s);
    ConflictReads(s, |s.cols|);
    ReadsJoin(0, InsertPieces(s), |s.cols|, InsertTokens(s), ConflictPieces(s), 0, ConflictTokens(s));
  }

  /** Every query prints as well-spaced text with one placeholder per bound value, numbered in order. */
  lemma {:induction false} QueryReads(s: Schema, q: Query)
    requires (q.UpsertRow? ==> HasKey(s)) && PlainQuery(s, q)
    ensures Reads(0, QueryPieces(s, q), QueryValues(s, q), QueryTokens(s, q))
  {
    hide Reads, WhereLeaves, AllPlain, Plain, Names;
    match q
    case InsertRow => InsertReads(s);
    case UpsertRow => UpsertReads(s);
    case SelectRows(cond) => SelectReads(s, cond);
    case CountRows(cond) => CountReads(s, cond);
    case DeleteRows(cond) => DeleteReads(s, cond);
    case UpdateField(col, cond) => UpdateReads(s, col, cond);
    case SelectField(col, cond) => FieldReads(s, col, cond);
  }
}
