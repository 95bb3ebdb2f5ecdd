/** Nothing else is read: every accepted definition is a well-spelled one, and means what was read. */
module SqlAccepted {
  import opened Common
  import opened Text
  import opened Numbers
  import opened SqlLexer
  import opened SqlGrammar
  import opened SqlSyntax
  import opened SqlReading

  // ---- putting items together ----

  /** `items` in front of `rest` make up `ts`, and lead from `s` to `out`. */
  ghost predicate Makes<X, S>(items: seq<X>, tokens: X -> seq<Token>, step: (S, X) -> S, ts: seq<Token>,
                                    rest: seq<Token>, s: S, out: S) {
    ts == Concat(items, tokens) + rest && out == Fold(s, items, step)
  }

  lemma MakesNone<X, S>(tokens: X -> seq<Token>, step: (S, X) -> S, ts: seq<Token>, s: S)
    ensures Makes([], tokens, step, ts, ts, s, s)
  {
  }

  lemma MakesMore<X, S>(x: X, items: seq<X>, tokens: X -> seq<Token>, step: (S, X) -> S, ts: seq<Token>,
                        more: seq<Token>, rest: seq<Token>, s: S, out: S)
    requires Makes(items, tokens, step, more, rest, step(s, x), out) && ts == tokens(x) + more
    ensures Makes([x] + items, tokens, step, ts, rest, s, out)
  {
    var all := [x] + items;
    assert all[0] == x && all[1..] == items;
    ConcatCons(all, tokens, rest);
  }

  lemma Uncons(ts: seq<Token>)
    requires ts != []
    ensures ts == [ts[0]] + ts[1..]
  {
  }

  lemma UnconsTwo(ts: seq<Token>)
    requires |ts| >= 2
    ensures ts == [ts[0], ts[1]] + ts[2..] && ts[1..][0] == ts[1]
  {
  }

  lemma UnconsThree(ts: seq<Token>)
    requires |ts| >= 3
    ensures ts == [ts[0], ts[1], ts[2]] + ts[3..] && ts[1..][0] == ts[1] && ts[2..][0] == ts[2]
  {
  }

  // ---- properties ----

  /** The first modifier of an accepted list. */
  lemma ModifierSpelled(ts: seq<Token>, d: PropertyDef, float: FloatParser) returns (m: Modifier, more: seq<Token>)
    requires Modifiers(ts, d, float).Some? && ts != [] && !EndsProperty(ts)
    ensures ValidModifier(m, float) && ts == ModifierTokens(m) + more && |more| < |ts|
    ensures Modifiers(more, Modified(d, m), float) == Modifiers(ts, d, float)
  {
    KeywordIff(ts, "required");
    KeywordIff(ts, "not");
    KeywordIff(ts, "index");
    KeywordIff(ts, "default");
    if Keyword(ts, "required") {
      m, more := Required(ts[0]), ts[1..];
      Uncons(ts);
    } else {
      UnconsTwo(ts);
      more := ts[2..];
      if Keyword(ts, "not") && Keyword(ts[1..], "null") {
        KeywordIff(ts[1..], "null");
        m := NotNull(ts[0], ts[1]);
      } else if Keyword(ts, "index") {
        m := Indexed(ts[0], ts[1], IndexOf(ts[1].text).value);
        IndexIff(ts[1].text, m.index);
      } else {
        m := Default(ts[0], ts[1], Literal(ts[1], float));
        LiteralIff(ts[1], m.value, float);
      }
    }
  }

  lemma {:induction false} ModifiersSpelled(ts: seq<Token>, d: PropertyDef, float: FloatParser) returns (ms: seq<Modifier>)
    requires Modifiers(ts, d, float).Some?
    ensures var r := Modifiers(ts, d, float).value;
            ValidModifiers(ms, float) && Makes(ms, ModifierTokens, Modified, ts, r.rest, d, r.value)
    decreases |ts|
  {
    if ts == [] || EndsProperty(ts) {
      ms := [];
      MakesNone(ModifierTokens, Modified, ts, d);
    } else {
      var m, more := ModifierSpelled(ts, d, float);
      var rest := ModifiersSpelled(more, Modified(d, m), float);
      var r := Modifiers(ts, d, float).value;
      MakesMore(m, rest, ModifierTokens, Modified, ts, more, r.rest, d, r.value);
      ms := [m] + rest;
    }
  }

  lemma PropertySpelled(ts: seq<Token>, float: FloatParser) returns (p: PropertyText)
    requires Property(ts, float).Some?
    ensures var r := Property(ts, float).value;
            ValidProperty(p, float) && ts == PropertyTokens(p) + r.rest && r.value == (p.name.text, DefOf(p))
  {
    var kind := TypeOf(ts[1].text).value;
    NameIff(ts);
    TypeIff(ts[1].text, kind);
    UnconsTwo(ts);
    var ms := ModifiersSpelled(ts[2..], PropertyDef(kind, false, None, None), float);
    p := PropertyText(ts[0], ts[1], kind, ms);
    PropertyShape(p, Property(ts, float).value.rest);
  }

  // ---- listings ----

  /** The listing with its closing parenthesis, in front of `rest`. */
  ghost predicate MakesList<X, S>(l: Listing<X>, tokens: X -> seq<Token>, step: (S, X) -> S, ts: seq<Token>,
                                        rest: seq<Token>, s: S, out: S) {
    (l.trailing ==> l.items != []) && ts == ListTokens(l, tokens) + rest && out == Fold(s, l.items, step)
  }

  lemma IsClose(ts: seq<Token>)
    requires Symbol(ts, ")")
    ensures ts == [W(")")] + ts[1..]
  {
  }

  lemma IsComma(ts: seq<Token>)
    requires Symbol(ts, ",")
    ensures ts == [W(",")] + ts[1..]
  {
  }

  lemma EmptyList<X, S>(tokens: X -> seq<Token>, step: (S, X) -> S, ts: seq<Token>, s: S)
    requires Symbol(ts, ")")
    ensures MakesList(Listing([], false), tokens, step, ts, ts[1..], s, s)
  {
    IsClose(ts);
    assert Concat([], WithComma(tokens)) + [W(")")] == [W(")")];
  }

  lemma LastItem<X, S>(x: X, tokens: X -> seq<Token>, step: (S, X) -> S, ts: seq<Token>, more: seq<Token>, s: S)
    requires ts == tokens(x) + more && Symbol(more, ")")
    ensures MakesList(Listing([x], false), tokens, step, ts, more[1..], s, step(s, x))
  {
    var l := Listing([x], false);
    IsClose(more);
    ListShape(l, tokens, more[1..]);
    assert l.items[..0] == [] && l.items[1..] == [] && l.items[0] == x;
    assert Concat(l.items[..0], WithComma(tokens)) + (tokens(x) + more) == tokens(x) + more;
  }

  /** One more item and a comma in front of a listing. */
  function ConsList<X>(x: X, l: Listing<X>): Listing<X> {
    Listing([x] + l.items, l.trailing || l.items == [])
  }

  lemma ConsShape<X>(x: X, l: Listing<X>, tokens: X -> seq<Token>, rest: seq<Token>)
    requires l.trailing ==> l.items != []
    ensures ListTokens(ConsList(x, l), tokens) + rest == tokens(x) + ([W(",")] + (ListTokens(l, tokens) + rest))
  {
    var c := ConsList(x, l);
    var close := [W(")")] + rest;
    ListShape(c, tokens, rest);
    ListShape(l, tokens, rest);
    assert c.items[0] == x && c.items[1..] == l.items;
    if l.trailing || l.items == [] {
      ConcatCons(c.items, WithComma(tokens), close);
      CommaShape(tokens, x, Concat(l.items, WithComma(tokens)) + close);
    } else {
      var n := |l.items| - 1;
      var tail := tokens(l.items[n]) + close;
      assert c.items[..n + 1] == [x] + l.items[..n] && c.items[n + 1] == l.items[n];
      assert c.items[..n + 1][1..] == l.items[..n];
      ConcatCons(c.items[..n + 1], WithComma(tokens), tail);
      CommaShape(tokens, x, Concat(l.items[..n], WithComma(tokens)) + tail);
    }
  }

  lemma CommaItem<X, S>(x: X, l: Listing<X>, tokens: X -> seq<Token>, step: (S, X) -> S, ts: seq<Token>,
                        more: seq<Token>, rest: seq<Token>, s: S, out: S)
    requires ts == tokens(x) + more && Symbol(more, ",")
    requires MakesList(l, tokens, step, more[1..], rest, step(s, x), out)
    ensures MakesList(ConsList(x, l), tokens, step, ts, rest, s, out)
  {
    IsComma(more);
    ConsShape(x, l, tokens, rest);
    assert ConsList(x, l).items[0] == x && ConsList(x, l).items[1..] == l.items;
  }

  lemma ConsValid(p: PropertyText, l: Listing<PropertyText>, float: FloatParser)
    requires ValidProperty(p, float) && ValidList(l, float)
    ensures ValidList(ConsList(p, l), float)
  {
  }

  lemma {:induction false} ListSpelled(ts: seq<Token>, seen: PropertyMap, float: FloatParser)
    returns (l: Listing<PropertyText>)
    requires Properties(ts, seen, float).Some?
    ensures var r := Properties(ts, seen, float).value;
            ValidList(l, float) && MakesList(l, PropertyTokens, WithProperty, ts, r.rest[1..], seen, r.value)
    decreases |ts|
  {
    var out := Properties(ts, seen, float).value;
    if Symbol(ts, ")") {
      l := Listing([], false);
      EmptyList(PropertyTokens, WithProperty, ts, seen);
    } else {
      var p := PropertySpelled(ts, float);
      var more := Property(ts, float).value.rest;
      var now := WithProperty(seen, p);
      if Symbol(more, ",") {
        var rest := ListSpelled(more[1..], now, float);
        l := ConsList(p, rest);
        CommaItem(p, rest, PropertyTokens, WithProperty, ts, more, out.rest[1..], seen, out.value);
        ConsValid(p, rest, float);
      } else {
        l := Listing([p], false);
        LastItem(p, PropertyTokens, WithProperty, ts, more, seen);
      }
    }
  }

  lemma IsOpen(ts: seq<Token>)
    requires Symbol(ts, "(")
    ensures ts == [W("(")] + ts[1..]
  {
  }

  lemma BlockSpelled(ts: seq<Token>, float: FloatParser) returns (l: Listing<PropertyText>)
    requires Block(ts, float).Some?
    ensures var r := Block(ts, float).value;
            && ValidList(l, float) && ts == [W("(")] + (ListTokens(l, PropertyTokens) + r.rest) && r.value == ListOf(l)
  {
    IsOpen(ts);
    l := ListSpelled(ts[1..], map[], float);
  }

  // ---- WITH ----

  lemma IsEquals(ts: seq<Token>)
    requires Symbol(ts, "=")
    ensures ts[0] == W("=")
  {
  }

  lemma OptionSpelled(ts: seq<Token>, meta: Meta) returns (o: OptionText)
    requires OneOption(ts, meta).Some?
    ensures ValidOption(o) && ts == OptionTokens(o) + ts[3..] && OneOption(ts, meta) == Some(WithOption(meta, o))
  {
    NameIff(ts);
    OneKey(ts[0].text);
    IsEquals(ts[1..]);
    UnconsThree(ts);
    if Normalize(ts[0].text) == "allow_undeclared_edges" && BoolOf(ts[2].text).Some? {
      o := AllowOption(ts[0], ts[2], BoolOf(ts[2].text).value);
      BoolIff(ts[2].text, o.allow);
    } else {
      o := ExtrasOption(ts[0], ts[2], ExtrasOf(ts[2].text).value);
      ExtrasIff(ts[2].text, o.extras);
    }
  }

  lemma {:induction false} OptionsSpelled(ts: seq<Token>, meta: Meta) returns (l: Listing<OptionText>)
    requires Options(ts, meta).Some?
    ensures var r := Options(ts, meta).value;
            ValidOptions(l) && MakesList(l, OptionTokens, WithOption, ts, r.rest[1..], meta, r.value)
    decreases |ts|
  {
    var out := Options(ts, meta).value;
    if Symbol(ts, ")") {
      l := Listing([], false);
      EmptyList(OptionTokens, WithOption, ts, meta);
    } else {
      var o := OptionSpelled(ts, meta);
      var more, now := ts[3..], WithOption(meta, o);
      if Symbol(more, ",") {
        assert ts[4..] == more[1..];
        var rest := OptionsSpelled(more[1..], now);
        l := ConsList(o, rest);
        CommaItem(o, rest, OptionTokens, WithOption, ts, more, out.rest[1..], meta, out.value);
      } else {
        l := Listing([o], false);
        LastItem(o, OptionTokens, WithOption, ts, more, meta);
      }
    }
  }

  lemma WithSpelled(ts: seq<Token>) returns (l: Listing<OptionText>)
    requires WithClause(ts).Some?
    ensures var r := WithClause(ts).value;
            ValidOptions(l) && ts == [W("(")] + (ListTokens(l, OptionTokens) + r.rest) && r.value == MetaOf(l)
  {
    IsOpen(ts);
    l := OptionsSpelled(ts[1..], Meta(false, Unspecified));
  }

  // ---- EDGE ----

  lemma PartKeywords(ts: seq<Token>)
    requires ts != []
    ensures Keyword(ts, "direction") <==> Word(ts[0], "direction")
    ensures Keyword(ts, "ownership") <==> Word(ts[0], "ownership")
    ensures Keyword(ts, "sort_key") <==> Word(ts[0], "sort_key")
    ensures Keyword(ts, "sort") <==> Word(ts[0], "sort")
  {
    KeywordIff(ts, "direction");
    KeywordIff(ts, "ownership");
    KeywordIff(ts, "sort_key");
    KeywordIff(ts, "sort");
  }

  lemma WordPartSpelled(ts: seq<Token>, edge: EdgeDef, float: FloatParser) returns (p: EdgePartText)
    requires EdgePart(ts, edge, float).Some? && !Symbol(ts, "(")
    ensures var r := EdgePart(ts, edge, float).value;
            ValidPart(p, float) && ts == PartTokens(p) + r.rest && r.value == WithPart(edge, p)
  {
    PartKeywords(ts);
    UnconsTwo(ts);
    NameIff(ts[1..]);
    if Keyword(ts, "direction") {
      p := DirectionPart(ts[0], ts[1], DirectionOf(ts[1].text).value);
      DirectionIff(ts[1].text, p.direction);
    } else if Keyword(ts, "ownership") {
      p := OwnershipPart(ts[0], ts[1], OwnershipOf(ts[1].text).value);
      OwnershipIff(ts[1].text, p.ownership);
    } else if Keyword(ts, "sort_key") {
      p := SortKeyPart(ts[0], ts[1]);
    } else {
      KeywordIff(ts[1..], "key");
      NameIff(ts[2..]);
      UnconsThree(ts);
      p := SortKeyTwoPart(ts[0], ts[1], ts[2]);
    }
  }

  lemma PartSpelled(ts: seq<Token>, edge: EdgeDef, float: FloatParser) returns (p: EdgePartText)
    requires EdgePart(ts, edge, float).Some?
    ensures var r := EdgePart(ts, edge, float).value;
            ValidPart(p, float) && ts == PartTokens(p) + r.rest && r.value == WithPart(edge, p)
  {
    if Symbol(ts, "(") {
      var l := BlockSpelled(ts, float);
      p := BlockPart(l);
      AppendAssoc([W("(")], ListTokens(l, PropertyTokens), EdgePart(ts, edge, float).value.rest);
    } else {
      p := WordPartSpelled(ts, edge, float);
    }
  }

  lemma {:induction false} PartsSpelled(ts: seq<Token>, edge: EdgeDef, float: FloatParser) returns (ps: seq<EdgePartText>)
    requires EdgeParts(ts, edge, float).Some?
    ensures var r := EdgeParts(ts, edge, float).value;
            && ValidParts(ps, float) && Makes(ps, PartTokens, WithPart, ts, r.rest, edge, r.value) && EdgeEnds(r.rest)
    decreases |ts|
  {
    if EdgeEnds(ts) {
      ps := [];
      MakesNone(PartTokens, WithPart, ts, edge);
    } else {
      var p := PartSpelled(ts, edge, float);
      var more := EdgePart(ts, edge, float).value.rest;
      var rest := PartsSpelled(more, WithPart(edge, p), float);
      var r := EdgeParts(ts, edge, float).value;
      MakesMore(p, rest, PartTokens, WithPart, ts, more, r.rest, edge, r.value);
      ps := [p] + rest;
    }
  }

  lemma EdgeSpelled(ts: seq<Token>, float: FloatParser) returns (e: EdgeText)
    requires EdgeClause(ts, float).Some?
    ensures var r := EdgeClause(ts, float).value;
            && ValidEdge(e, float) && ts == EdgeTokens(e) + r.rest && r.value == (e.name.text, EdgeOf(e)) && EdgeEnds(r.rest)
  {
    NameIff(ts);
    KeywordIff(ts[1..], "to");
    KeywordIff(ts[1..], "target");
    UnconsThree(ts);
    var target := TargetOf(ts[2].text);
    TargetIff(ts[2].text, target);
    var ps := PartsSpelled(ts[3..], EdgeDef(target, Outgoing, map[], "", SourceSite), float);
    e := EdgeText(ts[0], ts[1], ts[2], target, ps);
    EdgeShape(e, EdgeClause(ts, float).value.rest);
  }

  // ---- clauses ----

  /** The first clause of an accepted list. */
  lemma ClauseSpelled(ts: seq<Token>, s: Schema, float: FloatParser) returns (c: Clause, more: seq<Token>)
    requires Clauses(ts, s, float).Some? && (Symbol(ts, ";") || Keyword(ts, "with") || Keyword(ts, "edge"))
    ensures ValidClause(c, float) && ts == ClauseTokens(c) + more && |more| < |ts|
    ensures Clauses(more, WithOneClause(s, c), float) == Clauses(ts, s, float)
  {
    KeywordIff(ts, "with");
    KeywordIff(ts, "edge");
    Uncons(ts);
    if Symbol(ts, ";") {
      c, more := Semicolon, ts[1..];
      assert ts[0] == W(";");
      ReadSemicolon(more, s, float);
    } else if Keyword(ts, "with") {
      var l := WithSpelled(ts[1..]);
      c, more := With(ts[0], l), WithClause(ts[1..]).value.rest;
      ClauseShape(c, more);
    } else {
      var e := EdgeSpelled(ts[1..], float);
      c, more := Edge(ts[0], e), EdgeClause(ts[1..], float).value.rest;
      ClauseShape(c, more);
    }
  }

  lemma {:induction false} ClausesSpelled(ts: seq<Token>, s: Schema, float: FloatParser) returns (cs: seq<Clause>)
    requires Clauses(ts, s, float).Some?
    ensures var r := Clauses(ts, s, float).value;
            ValidClauses(cs, float) && Makes(cs, ClauseTokens, WithOneClause, ts, r.rest, s, r.value)
    decreases |ts|
  {
    if Symbol(ts, ";") || Keyword(ts, "with") || Keyword(ts, "edge") {
      var c, more := ClauseSpelled(ts, s, float);
      var rest := ClausesSpelled(more, WithOneClause(s, c), float);
      var r := Clauses(ts, s, float).value;
      MakesMore(c, rest, ClauseTokens, WithOneClause, ts, more, r.rest, s, r.value);
      cs := [c] + rest;
    } else {
      cs := [];
      MakesNone(ClauseTokens, WithOneClause, ts, s);
    }
  }

  // ---- whole definitions ----

  lemma {:induction false} ClausesLeave(ts: seq<Token>, s: Schema, float: FloatParser)
    requires Clauses(ts, s, float).Some?
    ensures !Symbol(Clauses(ts, s, float).value.rest, ";")
    decreases |ts|
  {
    var us := DropSemicolons(ts);
    if Keyword(us, "with") {
      ClausesLeave(WithClause(us[1..]).value.rest, s.(meta := Some(WithClause(us[1..]).value.value)), float);
    } else if Keyword(us, "edge") {
      var e := EdgeClause(us[1..], float).value;
      ClausesLeave(e.rest, s.(edges := s.edges[e.value.0 := e.value.1]), float);
    }
  }

  lemma AcceptedParts(ts: seq<Token>, float: FloatParser)
    requires ParseTokens(ts, float).Some?
    ensures |ts| >= 3 && Word(ts[0], "create") && (Word(ts[1], "type") || Word(ts[1], "schema")) && NameToken(ts[2])
    ensures Block(ts[3..], float).Some?
    ensures var b := Block(ts[3..], float).value;
            Clauses(b.rest, Schema(ts[2].text, b.value, map[], None), float) == Some(Parsed(ParseTokens(ts, float).value, []))
  {
    HeaderRead(ts);
    var b := Block(ts[3..], float).value;
    ClausesLeave(b.rest, Schema(ts[2].text, b.value, map[], None), float);
  }

  /** What is accepted is well spelled, and means what was read. */
  lemma SchemaSpelled(ts: seq<Token>, float: FloatParser) returns (s: SchemaText)
    requires ParseTokens(ts, float).Some?
    ensures ValidSchema(s, float) && ts == SchemaTokens(s) && ParseTokens(ts, float) == Some(SchemaOf(s))
  {
    AcceptedParts(ts, float);
    var b := Block(ts[3..], float).value;
    var l := BlockSpelled(ts[3..], float);
    var cs := ClausesSpelled(b.rest, Schema(ts[2].text, b.value, map[], None), float);
    s := SchemaText(ts[0], ts[1], ts[2], l, cs);
    SchemaShape(s);
    UnconsThree(ts);
    assert Concat(cs, ClauseTokens) + [] == Concat(cs, ClauseTokens);
  }

  ghost predicate Defines(ts: seq<Token>, schema: Schema, float: FloatParser) {
    exists s: SchemaText :: ValidSchema(s, float) && ts == SchemaTokens(s) && schema == SchemaOf(s)
  }

  /** Tokens are read as a schema exactly if they spell a definition of it. */
  lemma AcceptedIff(ts: seq<Token>, schema: Schema, float: FloatParser)
    ensures ParseTokens(ts, float) == Some(schema) <==> Defines(ts, schema, float)
  {
    if ParseTokens(ts, float) == Some(schema) {
      var s := SchemaSpelled(ts, float);
    }
    if Defines(ts, schema, float) {
      var s: SchemaText :| ValidSchema(s, float) && ts == SchemaTokens(s) && schema == SchemaOf(s);
      ReadSchema(s, float);
    }
  }
}
