/** The literal fragments the builder appends, as the pieces they spell. */
module SqlFragments {
  import opened Core
  import opened SqlText

  function Concat(parts: seq<string>): string {
    if parts == [] then "" else parts[0] + Concat(parts[1..])
  }

  lemma {:induction false} ConcatStep(parts: seq<string>)
    requires parts != []
    ensures Concat(parts) == parts[0] + Concat(parts[1..])
  {
  }

  lemma {:induction false} ConcatNone()
    ensures Concat([]) == ""
  {
  }

  lemma {:induction false} Concat3(a: string, b: string, c: string)
    ensures Concat([a, b, c]) == a + (b + c)
  {
    ConcatStep([a, b, c]);
    ConcatStep([b, c]);
    ConcatStep([c]);
    assert c + "" == c;
  }

  lemma {:induction false} Concat5(a: string, b: string, c: string, e: string, f: string)
    ensures Concat([a, b, c, e, f]) == a + (b + (c + (e + f)))
  {
    ConcatStep([a, b, c, e, f]);
    ConcatStep([b, c, e, f]);
    Concat3(c, e, f);
    assert [b, c, e, f][1..] == [c, e, f];
    assert [a, b, c, e, f][1..] == [b, c, e, f];
  }

  lemma {:induction false} RenderNone(d: Dialect, n: nat, text: string)
    ensures text + Render(d, n, []) == text
  {
  }

  lemma {:induction false} RenderStep(d: Dialect, n: nat, ps: seq<Piece>)
    requires ps != []
    ensures Render(d, n, ps) == Spell(d, n, ps[0]) + Render(d, After(n, ps[0]), ps[1..])
  {
  }

  lemma {:induction false} NoHoles(ps: seq<Piece>)
    requires forall i :: 0 <= i < |ps| ==> !ps[i].Hole?
    ensures Holes(ps) == 0
  {
    if ps != [] {
      NoHoles(ps[1..]);
    }
  }

  lemma {:induction false} SymbolText(d: Dialect, n: nat, c: char)
    ensures Render(d, n, [Sy(c)]) == [c] && Holes([Sy(c)]) == 0
  {
  }

  lemma {:induction false} WordText(d: Dialect, n: nat, word: string)
    ensures Render(d, n, [Space, Kw(word), Space]) == " " + word + " "
    ensures Holes([Space, Kw(word), Space]) == 0
  {
    RenderStep(d, n, [Space, Kw(word), Space]);
    RenderStep(d, n, [Kw(word), Space]);
    RenderStep(d, n, [Space]);
    NoHoles([Space, Kw(word), Space]);
    assert " " + (word + (" " + "")) == " " + word + " ";
  }

  lemma {:induction false} LeafText(d: Dialect, n: nat, col: string, op: CmpOp)
    ensures Render(d, n, [Id(col), Space, Op(op), Space]) == Concat(["\"", col, "\" ", OpText(op), " "])
    ensures Holes([Id(col), Space, Op(op), Space]) == 0
  {
    hide OpText;
    var o := OpText(op);
    assert Render(d, n, [Id(col), Space, Op(op), Space]) == ("\"" + col + "\"") + (" " + (o + (" " + ""))) by {
      RenderStep(d, n, [Id(col), Space, Op(op), Space]);
      RenderStep(d, n, [Space, Op(op), Space]);
      RenderStep(d, n, [Op(op), Space]);
      RenderStep(d, n, [Space]);
    }
    Concat5("\"", col, "\" ", o, " ");
    NoHoles([Id(col), Space, Op(op), Space]);
    assert ("\"" + col + "\"") + (" " + (o + (" " + ""))) == "\"" + (col + ("\" " + (o + " ")));
  }

  lemma {:induction false} NameText(d: Dialect, n: nat, name: string)
    ensures Render(d, n, [Id(name)]) == Concat(["\"", name, "\""]) && Holes([Id(name)]) == 0
  {
    RenderStep(d, n, [Id(name)]);
    Concat3("\"", name, "\"");
    assert ("\"" + name + "\"") + "" == "\"" + (name + "\"");
  }

  // ---- Names between fragments -----------------------------------------------------------

  /** A quoted name between two fragments that carry its quotes. */
  lemma {:induction false} QuotedText(d: Dialect, n: nat, pre: seq<Piece>, name: string, post: seq<Piece>, a: string,
      z: string)
    requires Holes(pre) == 0 && Render(d, n, pre) + "\"" == a
    requires Holes(post) == 0 && "\"" + Render(d, n, post) == z
    ensures Render(d, n, pre + ([Id(name)] + post)) == Concat([a, name, z]) && Holes(pre + ([Id(name)] + post)) == 0
  {
    hide Render, Holes, Concat;
    NameText(d, n, name);
    RenderJoin(d, n, [Id(name)], post);
    RenderJoin(d, n, pre, [Id(name)] + post);
    HolesJoin([Id(name)], post);
    HolesJoin(pre, [Id(name)] + post);
    Concat3(a, name, z);
    Concat3("\"", name, "\"");
    Requote(Render(d, n, pre), "\"", name, Render(d, n, post));
  }

  lemma {:induction false} Requote(a: string, q: string, name: string, z: string)
    ensures a + ((q + (name + q)) + z) == (a + q) + (name + (q + z))
  {
  }

  /** Two quoted names with a fragment between them. */
  lemma {:induction false} Quoted2Text(d: Dialect, n: nat, pre: seq<Piece>, name: string, mid: seq<Piece>,
      other: string, post: seq<Piece>,
                                       a: string, m: string, z: string)
    requires Holes(pre) == 0 && Render(d, n, pre) + "\"" == a
    requires Holes(mid) == 0 && "\"" + Render(d, n, mid) + "\"" == m
    requires Holes(post) == 0 && "\"" + Render(d, n, post) == z
    ensures var ps := pre + ([Id(name)] + (mid + ([Id(other)] + post)));
            Render(d, n, ps) == Concat([a, name, m, other, z]) && Holes(ps) == 0
  {
    hide Render, Holes, Concat;
    QuotedText(d, n, mid, other, post, Render(d, n, mid) + "\"", z);
    Concat3(Render(d, n, mid) + "\"", other, z);
    QuotedText(d, n, pre, name, mid + ([Id(other)] + post), a, "\"" + Render(d, n, mid + ([Id(other)] + post)));
    Concat3(a, name, "\"" + Render(d, n, mid + ([Id(other)] + post)));
    Concat5(a, name, m, other, z);
    assert "\"" + ((Render(d, n, mid) + "\"") + (other + z)) == m + (other + z);
  }

  // ---- Fragments -------------------------------------------------------------------------

  /** One more piece in front of pieces whose text is known. */
  lemma {:induction false} RenderCons(d: Dialect, n: nat, p: Piece, ps: seq<Piece>, t: string, u: string)
    requires !p.Hole? && (if ps == [] then t == "" else Render(d, n, ps) == t && Holes(ps) == 0)
    requires Spell(d, n, p) + t == u
    ensures Render(d, n, [p] + ps) == u && Holes([p] + ps) == 0
  {
  }

  lemma {:induction false} InsertIntoText(d: Dialect, n: nat)
    ensures Render(d, n, [Kw("INSERT"), Space, Kw("INTO"), Space]) + "\"" == "INSERT INTO \""
    ensures Holes([Kw("INSERT"), Space, Kw("INTO"), Space]) == 0
  {
  }

  lemma {:induction false} OpenColumnsText(d: Dialect, n: nat)
    ensures "\"" + Render(d, n, [Space, Sy('(')]) == "\" (" && Holes([Space, Sy('(')]) == 0
  {
  }

  lemma {:induction false} ValuesText(d: Dialect, n: nat)
    ensures Render(d, n, [Sy(')'), Space, Kw("VALUES"), Space, Sy('(')]) == ") VALUES ("
    ensures Holes([Sy(')'), Space, Kw("VALUES"), Space, Sy('(')]) == 0
  {
  }

  lemma {:induction false} OnConflictText(d: Dialect, n: nat)
    ensures Render(d, n, [Space, Kw("ON"), Space, Kw("CONFLICT"), Sy('(')]) + "\"" == " ON CONFLICT(\""
    ensures Holes([Space, Kw("ON"), Space, Kw("CONFLICT"), Sy('(')]) == 0
  {
    hide Render, Holes;
    RenderCons(d, n, Sy('('), [], "", "(");
    var p4 := [Sy('(')] + [];
    RenderCons(d, n, Kw("CONFLICT"), p4, "(", "CONFLICT(");
    var p3 := [Kw("CONFLICT")] + p4;
    RenderCons(d, n, Space, p3, "CONFLICT(", " CONFLICT(");
    var p2 := [Space] + p3;
    RenderCons(d, n, Kw("ON"), p2, " CONFLICT(", "ON CONFLICT(");
    var p1 := [Kw("ON")] + p2;
    RenderCons(d, n, Space, p1, "ON CONFLICT(", " ON CONFLICT(");
    var p0 := [Space] + p1;
    assert [Space, Kw("ON"), Space, Kw("CONFLICT"), Sy('(')] == p0;
    assert " ON CONFLICT(" + "\"" == " ON CONFLICT(\"";
  }

  lemma {:induction false} ExcludedText(d: Dialect, n: nat)
    ensures "\"" + Render(d, n, [Op(Eq), Kw("excluded"), Sy('.')]) + "\"" == "\"=excluded.\""
    ensures Holes([Op(Eq), Kw("excluded"), Sy('.')]) == 0
  {
  }

  lemma {:induction false} SelectWordText(d: Dialect, n: nat)
    ensures Render(d, n, [Kw("SELECT"), Space]) == "SELECT " && Holes([Kw("SELECT"), Space]) == 0
  {
  }

  lemma {:induction false} FromWordText(d: Dialect, n: nat)
    ensures Render(d, n, [Space, Kw("FROM"), Space]) + "\"" == " FROM \"" && Holes([Space, Kw("FROM"), Space]) == 0
  {
  }

  lemma {:induction false} DeleteFromText(d: Dialect, n: nat)
    ensures Render(d, n, [Kw("DELETE"), Space, Kw("FROM"), Space]) + "\"" == "DELETE FROM \""
    ensures Holes([Kw("DELETE"), Space, Kw("FROM"), Space]) == 0
  {
  }

  lemma {:induction false} UpdateWordText(d: Dialect, n: nat)
    ensures Render(d, n, [Kw("UPDATE"), Space]) + "\"" == "UPDATE \"" && Holes([Kw("UPDATE"), Space]) == 0
  {
  }

  lemma {:induction false} SetWordText(d: Dialect, n: nat)
    ensures "\"" + Render(d, n, [Space, Kw("SET"), Space]) + "\"" == "\" SET \""
    ensures Holes([Space, Kw("SET"), Space]) == 0
  {
  }

  lemma {:induction false} EqualsSignText(d: Dialect, n: nat)
    ensures "\"" + Render(d, n, [Op(Eq)]) == "\"=" && Holes([Op(Eq)]) == 0
  {
  }

  lemma {:induction false} SelectQuoteText(d: Dialect, n: nat)
    ensures Render(d, n, [Kw("SELECT"), Space]) + "\"" == "SELECT \"" && Holes([Kw("SELECT"), Space]) == 0
  {
  }

  lemma {:induction false} QuoteFromText(d: Dialect, n: nat)
    ensures "\"" + Render(d, n, [Space, Kw("FROM"), Space]) + "\"" == "\" FROM \""
    ensures Holes([Space, Kw("FROM"), Space]) == 0
  {
  }

  lemma {:induction false} WhereWordText(d: Dialect, n: nat)
    ensures Render(d, n, [Space, Kw("WHERE"), Space]) == " WHERE " && Holes([Space, Kw("WHERE"), Space]) == 0
  {
  }

  lemma {:induction false} DoUpdate1Text(d: Dialect, n: nat)
    ensures Render(d, n, [Sy(')'), Space, Kw("DO"), Space]) == ") DO " && Holes([Sy(')'), Space, Kw("DO"), Space]) == 0
  {
  }

  lemma {:induction false} DoUpdate2Text(d: Dialect, n: nat)
    ensures Render(d, n, [Kw("UPDATE"), Space, Kw("SET"), Space]) == "UPDATE SET "
    ensures Holes([Kw("UPDATE"), Space, Kw("SET"), Space]) == 0
  {
  }

  lemma {:induction false} DoUpdateText(d: Dialect, n: nat)
    ensures var ps := [Sy(')'), Space, Kw("DO"), Space, Kw("UPDATE"), Space, Kw("SET"), Space];
            "\"" + Render(d, n, ps) == "\") DO UPDATE SET " && Holes(ps) == 0
  {
    hide Render, Holes;
    NoHoles([Sy(')'), Space, Kw("DO"), Space, Kw("UPDATE"), Space, Kw("SET"), Space]);
    DoUpdate1Text(d, n);
    DoUpdate2Text(d, n);
    RenderJoin(d, n, [Sy(')'), Space, Kw("DO"), Space], [Kw("UPDATE"), Space, Kw("SET"), Space]);
    assert [Sy(')'), Space, Kw("DO"), Space, Kw("UPDATE"), Space, Kw("SET"), Space] ==
        [Sy(')'), Space, Kw("DO"), Space] + [Kw("UPDATE"), Space, Kw("SET"), Space];
    assert "\"" + (") DO " + "UPDATE SET ") == "\") DO UPDATE SET ";
  }

  lemma {:induction false} CountFrom1Text(d: Dialect, n: nat)
    ensures Render(d, n, [Kw("SELECT"), Space, Kw("COUNT"), Sy('(')]) == "SELECT COUNT("
    ensures Holes([Kw("SELECT"), Space, Kw("COUNT"), Sy('(')]) == 0
  {
  }

  lemma {:induction false} CountFrom2Text(d: Dialect, n: nat)
    ensures Render(d, n, [Sy('*'), Sy(')'), Space]) == "*) " && Holes([Sy('*'), Sy(')'), Space]) == 0
  {
  }

  lemma {:induction false} CountFrom3Text(d: Dialect, n: nat)
    ensures Render(d, n, [Kw("FROM"), Space]) == "FROM " && Holes([Kw("FROM"), Space]) == 0
  {
  }

  lemma {:induction false} CountFromText(d: Dialect, n: nat)
    ensures var ps := [Kw("SELECT"), Space, Kw("COUNT"), Sy('('), Sy('*'), Sy(')'), Space, Kw("FROM"), Space];
            Render(d, n, ps) + "\"" == "SELECT COUNT(*) FROM \"" && Holes(ps) == 0
  {
    hide Render, Holes;
    NoHoles([Kw("SELECT"), Space, Kw("COUNT"), Sy('('), Sy('*'), Sy(')'), Space, Kw("FROM"), Space]);
    CountFrom1Text(d, n);
    CountFrom2Text(d, n);
    CountFrom3Text(d, n);
    RenderJoin(d, n, [Sy('*'), Sy(')'), Space], [Kw("FROM"), Space]);
    RenderJoin(d, n, [Kw("SELECT"), Space, Kw("COUNT"), Sy('(')], [Sy('*'), Sy(')'), Space] + [Kw("FROM"), Space]);
    assert [Kw("SELECT"), Space, Kw("COUNT"), Sy('('), Sy('*'), Sy(')'), Space, Kw("FROM"), Space] ==
        [Kw("SELECT"), Space, Kw("COUNT"), Sy('(')] + ([Sy('*'), Sy(')'), Space] + [Kw("FROM"), Space]);
    assert ("SELECT COUNT(" + ("*) " + "FROM ")) + "\"" == "SELECT COUNT(*) FROM \"";
  }
}
