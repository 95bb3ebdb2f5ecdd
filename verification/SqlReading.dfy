/** Every well-spelled definition is read as the schema it stands for. */
module SqlReading {
  import opened Common
  import opened Text
  import opened Numbers
  import opened SqlLexer
  import opened SqlGrammar
  import opened SqlSyntax

  // ---- reading items one after the other ----

  type Reader<!S, R> = (seq<Token>, S) -> R

  type Follow = seq<Token> -> bool

  /** In front of tokens that may follow it, the item is read and changes what was read so far. */
  predicate ReadsItem<X, S, R(==)>(parse: Reader<S, R>, tokens: X -> seq<Token>, step: (S, X) -> S, x: X,
                                   rest: seq<Token>, s: S) {
    parse(tokens(x) + rest, s) == parse(rest, step(s, x))
  }

  predicate Begins<X>(tokens: X -> seq<Token>, follow: Follow, x: X, rest: seq<Token>) {
    follow(tokens(x) + rest)
  }

  lemma ConcatCons<X>(items: seq<X>, tokens: X -> seq<Token>, rest: seq<Token>)
    requires items != []
    ensures Concat(items, tokens) + rest == tokens(items[0]) + (Concat(items[1..], tokens) + rest)
  {
  }

  lemma {:induction false} ReadItems<X(!new), S(!new), R>(parse: Reader<S, R>, tokens: X -> seq<Token>,
                                                          step: (S, X) -> S, follow: Follow, items: seq<X>,
                                                          rest: seq<Token>, s: S)
    requires forall x, more, t :: x in items && follow(more) ==> ReadsItem(parse, tokens, step, x, more, t)
    requires forall x, more :: x in items ==> Begins(tokens, follow, x, more)
    requires follow(rest)
    ensures parse(Concat(items, tokens) + rest, s) == parse(rest, Fold(s, items, step))
    ensures follow(Concat(items, tokens) + rest)
    decreases |items|
  {
    if items == [] {
      assert Concat(items, tokens) + rest == rest;
    } else {
      var x, more := items[0], Concat(items[1..], tokens) + rest;
      ReadItems(parse, tokens, step, follow, items[1..], rest, step(s, x));
      ConcatCons(items, tokens, rest);
      assert ReadsItem(parse, tokens, step, x, more, s);
      assert Begins(tokens, follow, x, more);
    }
  }

  function Anything(): Follow {
    (ts: seq<Token>) => true
  }

  // ---- keywords ----

  /** The first token spells the keyword and no other. */
  lemma IsWord(ts: seq<Token>, w: string, other: string)
    requires ts != [] && Word(ts[0], w) && PlainWord(w) && PlainWord(other)
    ensures Keyword(ts, other) <==> other == w
  {
    KeywordIff(ts, w);
    KeywordIff(ts, other);
    if Word(ts[0], other) {
      CaseUnique(ts[0].text, w, other);
    }
  }

  /** A keyword is longer than a symbol. */
  lemma WordIsNoSymbol(ts: seq<Token>, w: string, text: string)
    requires ts != [] && Word(ts[0], w) && |w| > 1 && |text| == 1
    ensures !Symbol(ts, text)
  {
  }

  lemma First(t: Token, rest: seq<Token>)
    ensures ([t] + rest)[0] == t && ([t] + rest)[1..] == rest
  {
  }

  lemma FirstTwo(a: Token, b: Token, rest: seq<Token>)
    ensures var ts := [a, b] + rest;
            ts[0] == a && ts[1] == b && ts[1..] == [b] + rest && ts[1..][0] == b && ts[2..] == rest
  {
  }

  lemma FirstThree(a: Token, b: Token, c: Token, rest: seq<Token>)
    ensures var ts := [a, b, c] + rest;
            && ts[0] == a && ts[1] == b && ts[2] == c && ts[1..] == [b, c] + rest && ts[1..][0] == b
            && ts[2..] == [c] + rest && ts[2..][0] == c && ts[3..] == rest
  {
  }

  // ---- properties ----

  /** Which modifier keyword the tokens start with. */
  lemma ModifierWords(ts: seq<Token>, w: string)
    requires ts != [] && Word(ts[0], w) && w in {"required", "not", "index", "default"}
    ensures !Symbol(ts, ",") && !Symbol(ts, ")")
    ensures Keyword(ts, "required") <==> w == "required"
    ensures Keyword(ts, "not") <==> w == "not"
    ensures Keyword(ts, "index") <==> w == "index"
    ensures Keyword(ts, "default") <==> w == "default"
  {
    WordIsNoSymbol(ts, w, ",");
    WordIsNoSymbol(ts, w, ")");
    IsWord(ts, w, "required");
    IsWord(ts, w, "not");
    IsWord(ts, w, "index");
    IsWord(ts, w, "default");
  }

  lemma ReadModifier(m: Modifier, rest: seq<Token>, d: PropertyDef, float: FloatParser)
    requires ValidModifier(m, float)
    ensures Modifiers(ModifierTokens(m) + rest, d, float) == Modifiers(rest, Modified(d, m), float)
  {
    var ts := ModifierTokens(m) + rest;
    match m
    case Required(w) =>
      First(w, rest);
      ModifierWords(ts, "required");
    case NotNull(a, b) =>
      FirstTwo(a, b, rest);
      ModifierWords(ts, "not");
      KeywordIff(ts[1..], "null");
    case Indexed(w, n, i) =>
      FirstTwo(w, n, rest);
      ModifierWords(ts, "index");
      IndexIff(n.text, i);
    case Default(w, l, v) =>
      FirstTwo(w, l, rest);
      ModifierWords(ts, "default");
      LiteralIff(l, v, float);
  }

  /** The tokens after a property: a comma or the closing parenthesis. */
  predicate EndsProperty(ts: seq<Token>) {
    Symbol(ts, ",") || Symbol(ts, ")")
  }

  function ModifierReader(float: FloatParser): Reader<PropertyDef, Option<Parsed<PropertyDef>>> {
    (ts: seq<Token>, d: PropertyDef) => Modifiers(ts, d, float)
  }

  lemma ReadModifiers(ms: seq<Modifier>, rest: seq<Token>, d: PropertyDef, float: FloatParser)
    requires ValidModifiers(ms, float) && EndsProperty(rest)
    ensures Modifiers(Concat(ms, ModifierTokens) + rest, d, float) == Some(Parsed(Fold(d, ms, Modified), rest))
  {
    var parse := ModifierReader(float);
    forall m, more, t | m in ms
      ensures ReadsItem(parse, ModifierTokens, Modified, m, more, t)
    {
      ReadModifier(m, more, t, float);
    }
    forall m, more | m in ms
      ensures Begins(ModifierTokens, Anything(), m, more)
    {
    }
    ReadItems(parse, ModifierTokens, Modified, Anything(), ms, rest, d);
  }

  lemma PropertyShape(p: PropertyText, rest: seq<Token>)
    ensures PropertyTokens(p) + rest == [p.name, p.kindName] + (Concat(p.modifiers, ModifierTokens) + rest)
  {
  }

  /** A well-spelled property is read as what it means, in front of a comma or parenthesis. */
  lemma ReadProperty(p: PropertyText, rest: seq<Token>, float: FloatParser)
    requires ValidProperty(p, float) && EndsProperty(rest)
    ensures Property(PropertyTokens(p) + rest, float) == Some(Parsed((p.name.text, DefOf(p)), rest))
  {
    PropertyShape(p, rest);
    FirstTwo(p.name, p.kindName, Concat(p.modifiers, ModifierTokens) + rest);
    NameIff(PropertyTokens(p) + rest);
    TypeIff(p.kindName.text, p.kind);
    ReadModifiers(p.modifiers, rest, PropertyDef(p.kind, false, None, None), float);
  }

  function PropertyReader(float: FloatParser): Reader<PropertyMap, Option<Parsed<PropertyMap>>> {
    (ts: seq<Token>, seen: PropertyMap) => Properties(ts, seen, float)
  }

  lemma NameIsNoSymbol(ts: seq<Token>, text: string)
    requires ts != [] && NameToken(ts[0]) && |text| == 1 && IsSymbol(text[0])
    ensures !Symbol(ts, text)
  {
  }

  lemma PropertyStarts(p: PropertyText, rest: seq<Token>, float: FloatParser)
    requires ValidProperty(p, float)
    ensures PropertyTokens(p) + rest != [] && !Symbol(PropertyTokens(p) + rest, ")")
  {
    assert (PropertyTokens(p) + rest)[0] == p.name;
    NameIsNoSymbol(PropertyTokens(p) + rest, ")");
  }

  lemma CommaShape<X>(tokens: X -> seq<Token>, x: X, rest: seq<Token>)
    ensures WithComma(tokens)(x) + rest == tokens(x) + ([W(",")] + rest)
    ensures Symbol([W(",")] + rest, ",") && ([W(",")] + rest)[1..] == rest
  {
  }

  lemma ReadCommaProperty(p: PropertyText, rest: seq<Token>, seen: PropertyMap, float: FloatParser)
    requires ValidProperty(p, float)
    ensures Properties(WithComma(PropertyTokens)(p) + rest, seen, float) == Properties(rest, WithProperty(seen, p), float)
  {
    CommaShape(PropertyTokens, p, rest);
    ReadProperty(p, [W(",")] + rest, float);
    PropertyStarts(p, [W(",")] + rest, float);
  }

  lemma CloseShape(rest: seq<Token>)
    ensures Symbol([W(")")] + rest, ")") && !Symbol([W(")")] + rest, ",") && ([W(")")] + rest)[1..] == rest
  {
  }

  lemma ReadLastProperty(p: PropertyText, rest: seq<Token>, seen: PropertyMap, float: FloatParser)
    requires ValidProperty(p, float)
    ensures Properties(PropertyTokens(p) + ([W(")")] + rest), seen, float)
         == Some(Parsed(WithProperty(seen, p), [W(")")] + rest))
  {
    CloseShape(rest);
    ReadProperty(p, [W(")")] + rest, float);
    PropertyStarts(p, [W(")")] + rest, float);
  }

  /** How a listing ends: behind its last comma, or with an item that has none. */
  lemma ListShape<X>(l: Listing<X>, tokens: X -> seq<Token>, rest: seq<Token>)
    ensures ListTokens(l, tokens) + rest ==
            if l.trailing || l.items == [] then Concat(l.items, WithComma(tokens)) + ([W(")")] + rest)
            else Concat(l.items[..|l.items| - 1], WithComma(tokens))
                 + (tokens(l.items[|l.items| - 1]) + ([W(")")] + rest))
  {
    if l.trailing || l.items == [] {
      AppendAssoc(Concat(l.items, WithComma(tokens)), [W(")")], rest);
    } else {
      var n := |l.items| - 1;
      AppendAssoc(Concat(l.items[..n], WithComma(tokens)), tokens(l.items[n]) + [W(")")], rest);
      AppendAssoc(tokens(l.items[n]), [W(")")], rest);
    }
  }

  lemma {:induction false} FoldSnoc<X, S>(s: S, items: seq<X>, step: (S, X) -> S)
    requires items != []
    ensures Fold(s, items, step) == step(Fold(s, items[..|items| - 1], step), items[|items| - 1])
    decreases |items|
  {
    var n := |items| - 1;
    if n == 0 {
      assert items[1..] == [] && items[..0] == [];
    } else {
      FoldSnoc(step(s, items[0]), items[1..], step);
      assert items[1..][..n - 1] == items[..n][1..] && items[1..][n - 1] == items[n];
    }
  }

  type ListReader<!S> = Reader<S, Option<Parsed<S>>>

  /** The item is read in front of a comma, and as the last one in front of the closing parenthesis. */
  ghost predicate ReadsListed<X, S(!new)>(parse: ListReader<S>, tokens: X -> seq<Token>, step: (S, X) -> S, x: X) {
    && (forall rest: seq<Token>, s: S :: ReadsItem(parse, WithComma(tokens), step, x, rest, s))
    && (forall rest: seq<Token>, s: S :: ReadsLast(parse, tokens, step, x, rest, s))
  }

  ghost predicate ReadsLast<X, S(!new)>(parse: ListReader<S>, tokens: X -> seq<Token>, step: (S, X) -> S, x: X,
                                        rest: seq<Token>, s: S) {
    parse(tokens(x) + ([W(")")] + rest), s) == Some(Parsed(step(s, x), [W(")")] + rest))
  }

  ghost predicate Closes<S(!new)>(parse: ListReader<S>, rest: seq<Token>, s: S) {
    parse([W(")")] + rest, s) == Some(Parsed(s, [W(")")] + rest))
  }

  lemma ReadCommaItems<X(!new), S(!new)>(parse: ListReader<S>, tokens: X -> seq<Token>, step: (S, X) -> S,
                                         items: seq<X>, rest: seq<Token>, s: S)
    requires forall x :: x in items ==> ReadsListed(parse, tokens, step, x)
    ensures parse(Concat(items, WithComma(tokens)) + rest, s) == parse(rest, Fold(s, items, step))
  {
    forall x, more, t | x in items
      ensures ReadsItem(parse, WithComma(tokens), step, x, more, t)
    {
      assert ReadsListed(parse, tokens, step, x);
    }
    forall x, more | x in items
      ensures Begins(WithComma(tokens), Anything(), x, more)
    {
    }
    ReadItems(parse, WithComma(tokens), step, Anything(), items, rest, s);
  }

  lemma ReadListing<X(!new), S(!new)>(parse: ListReader<S>, tokens: X -> seq<Token>, step: (S, X) -> S,
                                      l: Listing<X>, rest: seq<Token>, s: S)
    requires forall x :: x in l.items ==> ReadsListed(parse, tokens, step, x)
    requires forall t: S :: Closes(parse, rest, t)
    ensures parse(ListTokens(l, tokens) + rest, s) == Some(Parsed(Fold(s, l.items, step), [W(")")] + rest))
  {
    ListShape(l, tokens, rest);
    if l.trailing || l.items == [] {
      ReadCommaItems(parse, tokens, step, l.items, [W(")")] + rest, s);
      assert Closes(parse, rest, Fold(s, l.items, step));
    } else {
      var n := |l.items| - 1;
      var front, last := l.items[..n], l.items[n];
      ReadCommaItems(parse, tokens, step, front, tokens(last) + ([W(")")] + rest), s);
      assert ReadsListed(parse, tokens, step, last);
      assert ReadsLast(parse, tokens, step, last, rest, Fold(s, front, step));
      FoldSnoc(s, l.items, step);
    }
  }

  /** A well-spelled property list is read as the map it lists, later entries winning. */
  lemma ReadList(l: Listing<PropertyText>, rest: seq<Token>, float: FloatParser)
    requires ValidList(l, float)
    ensures Properties(ListTokens(l, PropertyTokens) + rest, map[], float) == Some(Parsed(ListOf(l), [W(")")] + rest))
  {
    var parse := PropertyReader(float);
    forall p | p in l.items
      ensures ReadsListed(parse, PropertyTokens, WithProperty, p)
    {
      forall more: seq<Token>, t: PropertyMap
        ensures ReadsItem(parse, WithComma(PropertyTokens), WithProperty, p, more, t)
        ensures ReadsLast(parse, PropertyTokens, WithProperty, p, more, t)
      {
        ReadCommaProperty(p, more, t, float);
        ReadLastProperty(p, more, t, float);
      }
    }
    forall t: PropertyMap
      ensures Closes(parse, rest, t)
    {
      CloseShape(rest);
    }
    ReadListing(parse, PropertyTokens, WithProperty, l, rest, map[]);
  }

  lemma OpenShape(ts: seq<Token>)
    ensures Symbol([W("(")] + ts, "(") && ([W("(")] + ts)[1..] == ts
  {
  }

  lemma ReadBlock(l: Listing<PropertyText>, rest: seq<Token>, float: FloatParser)
    requires ValidList(l, float)
    ensures Block([W("(")] + (ListTokens(l, PropertyTokens) + rest), float) == Some(Parsed(ListOf(l), rest))
  {
    OpenShape(ListTokens(l, PropertyTokens) + rest);
    ReadList(l, rest, float);
    CloseShape(rest);
  }

  // ---- WITH ----

  lemma OptionStarts(o: OptionText, rest: seq<Token>)
    requires ValidOption(o)
    ensures var ts := OptionTokens(o) + rest;
            && !Symbol(ts, ")") && Identifier(ts).Some? && |ts| >= 3 && Symbol(ts[1..], "=")
            && ts[0] == o.key && ts[2] == o.value && ts[3..] == rest
  {
    FirstThree(o.key, W("="), o.value, rest);
    NameIff(OptionTokens(o) + rest);
  }

  lemma OneKey(text: string)
    ensures Normalize(text) == "allow_undeclared_edges" <==> Spells(Trim(text), "allow_undeclared_edges")
    ensures Normalize(text) == "extras_policy" <==> Spells(Trim(text), "extras_policy")
  {
    NormalIff(text, "allow_undeclared_edges");
    NormalIff(text, "extras_policy");
  }

  lemma ReadOneOption(o: OptionText, rest: seq<Token>, meta: Meta)
    requires ValidOption(o)
    ensures OneOption(OptionTokens(o) + rest, meta) == Some(WithOption(meta, o))
  {
    OptionStarts(o, rest);
    OneKey(o.key.text);
    match o
    case AllowOption(_, v, b) => BoolIff(v.text, b);
    case ExtrasOption(_, v, e) =>
      ExtrasIff(v.text, e);
      assert |"allow_undeclared_edges"| != |"extras_policy"|;
  }

  lemma ReadCommaOption(o: OptionText, rest: seq<Token>, meta: Meta)
    requires ValidOption(o)
    ensures Options(WithComma(OptionTokens)(o) + rest, meta) == Options(rest, WithOption(meta, o))
  {
    CommaShape(OptionTokens, o, rest);
    ReadOneOption(o, [W(",")] + rest, meta);
    OptionStarts(o, [W(",")] + rest);
    var ts := OptionTokens(o) + ([W(",")] + rest);
    assert ts[4..] == ts[3..][1..];
  }

  lemma ReadLastOption(o: OptionText, rest: seq<Token>, meta: Meta)
    requires ValidOption(o)
    ensures Options(OptionTokens(o) + ([W(")")] + rest), meta) == Some(Parsed(WithOption(meta, o), [W(")")] + rest))
  {
    CloseShape(rest);
    ReadOneOption(o, [W(")")] + rest, meta);
    OptionStarts(o, [W(")")] + rest);
  }

  function OptionReader(): Reader<Meta, Option<Parsed<Meta>>> {
    (ts: seq<Token>, meta: Meta) => Options(ts, meta)
  }

  lemma ReadOptions(l: Listing<OptionText>, rest: seq<Token>)
    requires ValidOptions(l)
    ensures Options(ListTokens(l, OptionTokens) + rest, Meta(false, Unspecified)) == Some(Parsed(MetaOf(l), [W(")")] + rest))
  {
    var parse := OptionReader();
    forall o | o in l.items
      ensures ReadsListed(parse, OptionTokens, WithOption, o)
    {
      forall more: seq<Token>, t: Meta
        ensures ReadsItem(parse, WithComma(OptionTokens), WithOption, o, more, t)
        ensures ReadsLast(parse, OptionTokens, WithOption, o, more, t)
      {
        ReadCommaOption(o, more, t);
        ReadLastOption(o, more, t);
      }
    }
    forall t: Meta
      ensures Closes(parse, rest, t)
    {
      CloseShape(rest);
    }
    ReadListing(parse, OptionTokens, WithOption, l, rest, Meta(false, Unspecified));
  }

  /** Well-spelled options are read as what they set. */
  lemma ReadWith(l: Listing<OptionText>, rest: seq<Token>)
    requires ValidOptions(l)
    ensures WithClause([W("(")] + (ListTokens(l, OptionTokens) + rest)) == Some(Parsed(MetaOf(l), rest))
  {
    OpenShape(ListTokens(l, OptionTokens) + rest);
    ReadOptions(l, rest);
    CloseShape(rest);
  }

  // ---- EDGE ----

  /** Which keyword an edge part starts with. */
  lemma PartWords(ts: seq<Token>, w: string)
    requires ts != [] && Word(ts[0], w) && w in {"direction", "ownership", "sort_key", "sort"}
    ensures !EdgeEnds(ts) && !Symbol(ts, "(")
    ensures Keyword(ts, "direction") <==> w == "direction"
    ensures Keyword(ts, "ownership") <==> w == "ownership"
    ensures Keyword(ts, "sort_key") <==> w == "sort_key"
    ensures Keyword(ts, "sort") <==> w == "sort"
  {
    WordIsNoSymbol(ts, w, ";");
    WordIsNoSymbol(ts, w, "(");
    IsWord(ts, w, "edge");
    IsWord(ts, w, "with");
    IsWord(ts, w, "direction");
    IsWord(ts, w, "ownership");
    IsWord(ts, w, "sort_key");
    IsWord(ts, w, "sort");
  }

  lemma PartsStep(ts: seq<Token>, edge: EdgeDef, now: EdgeDef, rest: seq<Token>, float: FloatParser)
    requires !EdgeEnds(ts) && EdgePart(ts, edge, float) == Some(Parsed(now, rest))
    ensures EdgeParts(ts, edge, float) == EdgeParts(rest, now, float)
  {
  }

  lemma ReadBlockPart(l: Listing<PropertyText>, rest: seq<Token>, edge: EdgeDef, float: FloatParser)
    requires ValidList(l, float)
    ensures EdgePart([W("(")] + (ListTokens(l, PropertyTokens) + rest), edge, float)
         == Some(Parsed(edge.(properties := ListOf(l)), rest))
    ensures !EdgeEnds([W("(")] + (ListTokens(l, PropertyTokens) + rest))
  {
    OpenShape(ListTokens(l, PropertyTokens) + rest);
    ReadBlock(l, rest, float);
  }

  lemma ReadWordPart(p: EdgePartText, rest: seq<Token>, edge: EdgeDef, float: FloatParser)
    requires ValidPart(p, float) && !p.BlockPart?
    ensures EdgePart(PartTokens(p) + rest, edge, float) == Some(Parsed(WithPart(edge, p), rest))
    ensures !EdgeEnds(PartTokens(p) + rest)
  {
    var ts := PartTokens(p) + rest;
    match p
    case DirectionPart(w, n, d) =>
      FirstTwo(w, n, rest);
      PartWords(ts, "direction");
      DirectionIff(n.text, d);
    case OwnershipPart(w, n, o) =>
      FirstTwo(w, n, rest);
      PartWords(ts, "ownership");
      OwnershipIff(n.text, o);
    case SortKeyPart(w, k) =>
      FirstTwo(w, k, rest);
      PartWords(ts, "sort_key");
      NameIff(ts[1..]);
    case SortKeyTwoPart(a, b, k) =>
      FirstThree(a, b, k, rest);
      PartWords(ts, "sort");
      KeywordIff(ts[1..], "key");
      NameIff(ts[2..]);
  }

  lemma ReadPart(p: EdgePartText, rest: seq<Token>, edge: EdgeDef, float: FloatParser)
    requires ValidPart(p, float)
    ensures EdgeParts(PartTokens(p) + rest, edge, float) == EdgeParts(rest, WithPart(edge, p), float)
  {
    if p.BlockPart? {
      AppendAssoc([W("(")], ListTokens(p.list, PropertyTokens), rest);
      ReadBlockPart(p.list, rest, edge, float);
    } else {
      ReadWordPart(p, rest, edge, float);
    }
    PartsStep(PartTokens(p) + rest, edge, WithPart(edge, p), rest, float);
  }

  function PartReader(float: FloatParser): Reader<EdgeDef, Option<Parsed<EdgeDef>>> {
    (ts: seq<Token>, edge: EdgeDef) => EdgeParts(ts, edge, float)
  }

  lemma ReadParts(ps: seq<EdgePartText>, rest: seq<Token>, edge: EdgeDef, float: FloatParser)
    requires ValidParts(ps, float) && EdgeEnds(rest)
    ensures EdgeParts(Concat(ps, PartTokens) + rest, edge, float) == Some(Parsed(Fold(edge, ps, WithPart), rest))
  {
    var parse := PartReader(float);
    forall p, more, t | p in ps
      ensures ReadsItem(parse, PartTokens, WithPart, p, more, t)
    {
      ReadPart(p, more, t, float);
    }
    forall p, more | p in ps
      ensures Begins(PartTokens, Anything(), p, more)
    {
    }
    ReadItems(parse, PartTokens, WithPart, Anything(), ps, rest, edge);
  }

  lemma EdgeShape(e: EdgeText, rest: seq<Token>)
    ensures EdgeTokens(e) + rest == [e.name, e.to, e.target] + (Concat(e.parts, PartTokens) + rest)
  {
  }

  /** A well-spelled edge is read as what it means, up to the next clause. */
  lemma ReadEdge(e: EdgeText, rest: seq<Token>, float: FloatParser)
    requires ValidEdge(e, float) && EdgeEnds(rest)
    ensures EdgeClause(EdgeTokens(e) + rest, float) == Some(Parsed((e.name.text, EdgeOf(e)), rest))
  {
    var more := Concat(e.parts, PartTokens) + rest;
    var ts := [e.name, e.to, e.target] + more;
    EdgeShape(e, rest);
    FirstThree(e.name, e.to, e.target, more);
    NameIff(ts);
    KeywordIff(ts[1..], "to");
    KeywordIff(ts[1..], "target");
    TargetIff(e.target.text, e.leads);
    ReadParts(e.parts, rest, EdgeDef(e.leads, Outgoing, map[], "", SourceSite), float);
  }

  // ---- clauses ----

  lemma WordDropsNothing(ts: seq<Token>, w: string)
    requires ts != [] && Word(ts[0], w) && |w| > 1
    ensures DropSemicolons(ts) == ts
  {
    WordIsNoSymbol(ts, w, ";");
  }

  lemma WithFrom(ts: seq<Token>, meta: Meta, rest: seq<Token>, s: Schema, float: FloatParser)
    requires ts != [] && Word(ts[0], "with") && WithClause(ts[1..]) == Some(Parsed(meta, rest))
    ensures Clauses(ts, s, float) == Clauses(rest, s.(meta := Some(meta)), float)
  {
    WordDropsNothing(ts, "with");
    KeywordIff(ts, "with");
  }

  lemma ReadWithClause(w: Token, options: Listing<OptionText>, rest: seq<Token>, s: Schema, float: FloatParser)
    requires Word(w, "with") && ValidOptions(options)
    ensures Clauses([w] + ([W("(")] + (ListTokens(options, OptionTokens) + rest)), s, float)
         == Clauses(rest, s.(meta := Some(MetaOf(options))), float)
  {
    var more := [W("(")] + (ListTokens(options, OptionTokens) + rest);
    First(w, more);
    ReadWith(options, rest);
    WithFrom([w] + more, MetaOf(options), rest, s, float);
  }

  lemma EdgeFrom(ts: seq<Token>, name: string, edge: EdgeDef, rest: seq<Token>, s: Schema, float: FloatParser)
    requires ts != [] && Word(ts[0], "edge") && EdgeClause(ts[1..], float) == Some(Parsed((name, edge), rest))
    ensures Clauses(ts, s, float) == Clauses(rest, s.(edges := s.edges[name := edge]), float)
  {
    WordDropsNothing(ts, "edge");
    IsWord(ts, "edge", "edge");
    IsWord(ts, "edge", "with");
  }

  lemma ReadEdgeClause(w: Token, edge: EdgeText, rest: seq<Token>, s: Schema, float: FloatParser)
    requires Word(w, "edge") && ValidEdge(edge, float) && EdgeEnds(rest)
    ensures Clauses([w] + (EdgeTokens(edge) + rest), s, float)
         == Clauses(rest, s.(edges := s.edges[edge.name.text := EdgeOf(edge)]), float)
  {
    First(w, EdgeTokens(edge) + rest);
    ReadEdge(edge, rest, float);
    EdgeFrom([w] + (EdgeTokens(edge) + rest), edge.name.text, EdgeOf(edge), rest, s, float);
  }

  lemma ReadSemicolon(rest: seq<Token>, s: Schema, float: FloatParser)
    ensures Clauses([W(";")] + rest, s, float) == Clauses(rest, s, float)
  {
    First(W(";"), rest);
    assert DropSemicolons([W(";")] + rest) == DropSemicolons(rest);
  }

  lemma ClauseShape(c: Clause, rest: seq<Token>)
    ensures ClauseTokens(c) + rest ==
            match c
            case Semicolon => [W(";")] + rest
            case With(w, options) => [w] + ([W("(")] + (ListTokens(options, OptionTokens) + rest))
            case Edge(w, edge) => [w] + (EdgeTokens(edge) + rest)
  {
    match c
    case Semicolon =>
    case With(w, options) =>
      assert [w, W("(")] == [w] + [W("(")];
      AppendAssoc([w, W("(")], ListTokens(options, OptionTokens), rest);
      AppendAssoc([w], [W("(")], ListTokens(options, OptionTokens) + rest);
    case Edge(w, edge) => AppendAssoc([w], EdgeTokens(edge), rest);
  }

  lemma ReadClause(c: Clause, rest: seq<Token>, s: Schema, float: FloatParser)
    requires ValidClause(c, float) && EdgeEnds(rest)
    ensures Clauses(ClauseTokens(c) + rest, s, float) == Clauses(rest, WithOneClause(s, c), float)
  {
    ClauseShape(c, rest);
    match c
    case Semicolon => ReadSemicolon(rest, s, float);
    case With(w, options) => ReadWithClause(w, options, rest, s, float);
    case Edge(w, edge) => ReadEdgeClause(w, edge, rest, s, float);
  }

  lemma ClauseHead(c: Clause, rest: seq<Token>)
    ensures ClauseTokens(c) != []
    ensures (ClauseTokens(c) + rest)[0] == if c.Semicolon? then W(";") else c.word
  {
  }

  lemma EndsAt(ts: seq<Token>)
    requires ts != [] && (ts[0] == W(";") || Word(ts[0], "with") || Word(ts[0], "edge"))
    ensures EdgeEnds(ts)
  {
    KeywordIff(ts, "with");
    KeywordIff(ts, "edge");
  }

  lemma ClauseStarts(c: Clause, rest: seq<Token>, float: FloatParser)
    requires ValidClause(c, float)
    ensures EdgeEnds(ClauseTokens(c) + rest)
  {
    ClauseHead(c, rest);
    EndsAt(ClauseTokens(c) + rest);
  }

  function ClauseReader(float: FloatParser): Reader<Schema, Option<Parsed<Schema>>> {
    (ts: seq<Token>, s: Schema) => Clauses(ts, s, float)
  }

  lemma ReadClauses(cs: seq<Clause>, s: Schema, float: FloatParser)
    requires ValidClauses(cs, float)
    ensures Clauses(Concat(cs, ClauseTokens), s, float) == Some(Parsed(Fold(s, cs, WithOneClause), []))
  {
    var parse := ClauseReader(float);
    forall c, more, t | c in cs && EdgeEnds(more)
      ensures ReadsItem(parse, ClauseTokens, WithOneClause, c, more, t)
    {
      ReadClause(c, more, t, float);
    }
    forall c, more | c in cs
      ensures Begins(ClauseTokens, EdgeEnds, c, more)
    {
      ClauseStarts(c, more, float);
    }
    ReadItems(parse, ClauseTokens, WithOneClause, EdgeEnds, cs, [], s);
    assert Concat(cs, ClauseTokens) + [] == Concat(cs, ClauseTokens);
  }

  // ---- whole definitions ----

  lemma SchemaShape(s: SchemaText)
    ensures SchemaTokens(s) ==
            [s.create, s.kind, s.name] + ([W("(")] + (ListTokens(s.list, PropertyTokens) + Concat(s.clauses, ClauseTokens)))
  {
  }

  lemma HeaderRead(ts: seq<Token>)
    ensures |ts| >= 3 && Keyword(ts, "create") && (Keyword(ts[1..], "type") || Keyword(ts[1..], "schema"))
            && Identifier(ts[2..]).Some?
       <==> |ts| >= 3 && Word(ts[0], "create") && (Word(ts[1], "type") || Word(ts[1], "schema")) && NameToken(ts[2])
  {
    if |ts| >= 3 {
      KeywordIff(ts, "create");
      KeywordIff(ts[1..], "type");
      KeywordIff(ts[1..], "schema");
      NameIff(ts[2..]);
    }
  }

  lemma DefinitionFrom(ts: seq<Token>, props: PropertyMap, rest: seq<Token>, schema: Schema, float: FloatParser)
    requires |ts| >= 3 && Word(ts[0], "create") && (Word(ts[1], "type") || Word(ts[1], "schema")) && NameToken(ts[2])
    requires Block(ts[3..], float) == Some(Parsed(props, rest))
    requires Clauses(rest, Schema(ts[2].text, props, map[], None), float) == Some(Parsed(schema, []))
    ensures ParseTokens(ts, float) == Some(schema)
  {
    HeaderRead(ts);
  }

  /** Every well-spelled definition is read as the schema it stands for. */
  lemma ReadSchema(s: SchemaText, float: FloatParser)
    requires ValidSchema(s, float)
    ensures ParseTokens(SchemaTokens(s), float) == Some(SchemaOf(s))
  {
    var rest := Concat(s.clauses, ClauseTokens);
    var block := [W("(")] + (ListTokens(s.list, PropertyTokens) + rest);
    SchemaShape(s);
    FirstThree(s.create, s.kind, s.name, block);
    ReadBlock(s.list, rest, float);
    ReadClauses(s.clauses, Schema(s.name.text, ListOf(s.list), map[], None), float);
    DefinitionFrom([s.create, s.kind, s.name] + block, ListOf(s.list), rest, SchemaOf(s), float);
  }
}
