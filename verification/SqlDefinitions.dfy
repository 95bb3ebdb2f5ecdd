/** Whole definitions: which texts define a schema, and that every plain schema has one. */
module SqlDefinitions {
  import opened Common
  import opened Text
  import opened Numbers
  import opened SqlLexer
  import opened SqlGrammar
  import opened SqlSyntax
  import opened SqlReading
  import opened SqlAccepted
  import opened SqlText

  /**
   * However it is spelled, spaced, quoted and commented: the text of a definition is read as the
   * schema the definition stands for.
   */
  lemma RoundTrip(s: SchemaText, es: seq<Element>, float: FloatParser)
    requires ValidSchema(s, float) && ValidElements(es) && TokensOf(es) == SchemaTokens(s)
    ensures ParseSql(TextOf(es), float) == Some(SchemaOf(s))
  {
    TextRead(es);
    ReadSchema(s, float);
  }

  /** The text is that of a definition of the schema. */
  ghost predicate Texts(text: string, schema: Schema, float: FloatParser) {
    exists s: SchemaText, es: seq<Element> ::
      && ValidSchema(s, float) && ValidElements(es) && TokensOf(es) == SchemaTokens(s)
      && text == TextOf(es) && schema == SchemaOf(s)
  }

  /** A text is read as a schema exactly if it is the text of a definition of it; every other text is refused. */
  lemma ParsedIff(text: string, schema: Schema, float: FloatParser)
    ensures ParseSql(text, float) == Some(schema) <==> Texts(text, schema, float)
  {
    if ParseSql(text, float) == Some(schema) {
      var es := TextSplit(text);
      var s := SchemaSpelled(TokensOf(es), float);
    }
    if Texts(text, schema, float) {
      var s: SchemaText, es: seq<Element> :|
        && ValidSchema(s, float) && ValidElements(es) && TokensOf(es) == SchemaTokens(s)
        && text == TextOf(es) && schema == SchemaOf(s);
      RoundTrip(s, es, float);
    }
  }

  // ---- tokens as text ----

  function Q(s: string): Token {
    Token(s, true)
  }

  predicate Writable(t: Token) {
    t.quoted || BareWord(t.text) || (|t.text| == 1 && IsSymbol(t.text[0]))
  }

  ghost predicate AllWritable(ts: seq<Token>) {
    forall i :: 0 <= i < |ts| ==> Writable(ts[i])
  }

  function Escaped(text: string): seq<Char> {
    if text == [] then [] else [Char(text[0], true)] + Escaped(text[1..])
  }

  lemma {:induction false} EscapedReads(text: string, quote: char)
    ensures ValidChars(Escaped(text), quote) && PlainText(Escaped(text)) == text
    decreases |text|
  {
    if text != [] {
      EscapedReads(text[1..], quote);
    }
  }

  function ElementFor(t: Token): Element {
    if t.quoted then QuotedText('"', Escaped(t.text))
    else if |t.text| == 1 && IsSymbol(t.text[0]) then SymbolText(t.text[0])
    else WordText(t.text)
  }

  /** The tokens, each with a space behind it. */
  function ElementsFor(ts: seq<Token>): seq<Element> {
    if ts == [] then [] else [ElementFor(ts[0]), Space(' ')] + ElementsFor(ts[1..])
  }

  lemma ElementForIs(t: Token, rest: string)
    requires Writable(t) && rest != [] && rest[0] == ' '
    ensures ValidAt(ElementFor(t), rest) && ElementTokens(ElementFor(t)) == [t]
  {
    EscapedReads(t.text, '"');
    if !t.quoted && |t.text| == 1 {
      assert t.text == [t.text[0]];
    }
  }

  /** One more element in front. */
  lemma ElementInFront(e: Element, es: seq<Element>, all: seq<Element>)
    requires all == [e] + es && ValidElements(es) && ValidAt(e, TextOf(es))
    ensures ValidElements(all) && TokensOf(all) == ElementTokens(e) + TokensOf(es)
  {
    assert all[0] == e && all[1..] == es;
  }

  /** A token with a space behind it. */
  lemma TokenInFront(t: Token, e: Element, es: seq<Element>, spaced: seq<Element>, all: seq<Element>)
    requires Writable(t) && ValidElements(es) && e == ElementFor(t)
    requires spaced == [Space(' ')] + es && all == [e] + spaced
    ensures ValidElements(all) && TokensOf(all) == [t] + TokensOf(es)
  {
    SpaceThen(spaced, es);
    ElementForIs(t, TextOf(spaced));
    ElementInFront(e, spaced, all);
  }

  lemma PairInFront<X>(x: X, y: X, xs: seq<X>)
    ensures [x, y] + xs == [x] + ([y] + xs)
  {
  }

  lemma {:induction false} ElementsForAre(ts: seq<Token>)
    requires AllWritable(ts)
    ensures ValidElements(ElementsFor(ts)) && TokensOf(ElementsFor(ts)) == ts
    decreases |ts|
  {
    if ts != [] {
      ElementsForAre(ts[1..]);
      var rest := ElementsFor(ts[1..]);
      PairInFront(ElementFor(ts[0]), Space(' '), rest);
      TokenInFront(ts[0], ElementFor(ts[0]), rest, [Space(' ')] + rest, ElementsFor(ts));
    }
  }

  lemma SpaceThen(spaced: seq<Element>, es: seq<Element>)
    requires spaced == [Space(' ')] + es && ValidElements(es)
    ensures ValidElements(spaced) && TokensOf(spaced) == TokensOf(es)
    ensures TextOf(spaced) != [] && TextOf(spaced)[0] == ' '
  {
    assert spaced[0] == Space(' ') && spaced[1..] == es;
    assert [] + TokensOf(es) == TokensOf(es);
  }

  // ---- a definition for every schema ----

  function TypeWord(t: PropertyType): string {
    match t
    case StringType => "string"
    case IntType => "int"
    case FloatType => "float"
    case BoolType => "bool"
    case TimestampType => "timestamp"
    case BytesType => "bytes"
  }

  function IndexWord(i: IndexType): string {
    match i
    case NoIndex => "none"
    case Unique => "unique"
    case Equality => "eq"
    case Range => "range"
  }

  function ExtrasWord(e: ExtrasPolicy): string {
    match e
    case Unspecified => "unspecified"
    case Reject => "reject"
    case Allow => "allow"
    case Warn => "warn"
  }

  function DirectionWord(d: Direction): string {
    match d
    case Outgoing => "outgoing"
    case Bidirectional => "bidirectional"
  }

  function OwnershipWord(o: Ownership): string {
    match o
    case SourceSite => "sourcesite"
    case Independent => "independent"
  }

  /** A word of small letters and underscores spells itself. */
  lemma SpellsItself(w: string, words: set<string>)
    requires w in words && PlainWord(w)
    ensures SpellsOne(w, words) && Trim(w) == w && Spells(w, w) && CaseOf(w, w) && BareWord(w)
  {
    TrimTrimmed(w);
    forall i: nat | i < |w|
      ensures !DoubleAt(w, i, '-')
    {
    }
  }

  lemma PlainKeyword(w: string)
    requires PlainWord(w)
    ensures Word(W(w), w) && Writable(W(w))
  {
    SpellsItself(w, {w});
  }

  lemma TypeSpelled(t: PropertyType)
    ensures SpellsOne(TypeWord(t), TypeWords(t))
  {
    SpellsItself(TypeWord(t), TypeWords(t));
  }

  lemma IndexSpelled(i: IndexType)
    ensures SpellsOne(IndexWord(i), IndexWords(i))
  {
    SpellsItself(IndexWord(i), IndexWords(i));
  }

  lemma ExtrasSpelled(e: ExtrasPolicy)
    ensures SpellsOne(ExtrasWord(e), ExtrasWords(e))
  {
    SpellsItself(ExtrasWord(e), ExtrasWords(e));
  }

  lemma DirectionSpelled(d: Direction)
    ensures SpellsOne(DirectionWord(d), DirectionWords(d))
  {
    SpellsItself(DirectionWord(d), DirectionWords(d));
  }

  lemma OwnershipSpelled(o: Ownership)
    ensures SpellsOne(OwnershipWord(o), OwnershipWords(o))
  {
    SpellsItself(OwnershipWord(o), OwnershipWords(o));
  }

  function BoolWord(b: bool): string {
    if b then "true" else "false"
  }

  lemma BoolSpelled(b: bool)
    ensures SpellsOne(BoolWord(b), BoolWords(b)) && Writable(W(BoolWord(b)))
  {
    SpellsItself(BoolWord(b), BoolWords(b));
  }

  // ---- defaults ----

  /** Defaults the syntax can express exactly: no floats, and integers of 64 bits. */
  predicate PlainDefault(d: PropertyDef) {
    d.fallback.Some? ==> !d.fallback.value.FloatValue? && (d.fallback.value.IntValue? ==> IsI64(d.fallback.value.n))
  }

  function ValueToken(v: Value): Token
    requires !v.FloatValue?
  {
    match v
    case StringValue(s) => Q(s)
    case IntValue(n) => W(Decimal(n))
    case BoolValue(b) => W(BoolWord(b))
    case NullValue => W("null")
  }

  /** Digits, with at most a minus sign in front, are one bare word. */
  lemma NumberWord(w: string)
    requires w != [] && (w[0] == '-' || '0' <= w[0] <= '9') && forall i :: 1 <= i < |w| ==> '0' <= w[i] <= '9'
    ensures BareWord(w) && (w[|w| - 1] != '-' ==> Trimmed(w))
  {
    forall i: nat | i < |w|
      ensures !DoubleAt(w, i, '-')
    {
    }
  }

  lemma DecimalWord(n: int)
    ensures BareWord(Decimal(n)) && Trimmed(Decimal(n))
    ensures Decimal(n)[0] == '-' || '0' <= Decimal(n)[0] <= '9'
  {
    var w := Decimal(n);
    var digits := Digits(if n < 0 then -n else n);
    DigitsRead(if n < 0 then -n else n);
    assert w == if n < 0 then ['-'] + digits else digits;
    assert w[|w| - 1] == digits[|digits| - 1];
    NumberWord(w);
  }

  lemma NumberIsNoWord(w: string)
    requires w != [] && Trimmed(w) && (w[0] == '-' || '0' <= w[0] <= '9')
    ensures NoWord(w)
  {
    TrimTrimmed(w);
  }

  lemma IntSpelled(n: int, float: FloatParser)
    requires IsI64(n)
    ensures LiteralSpells(W(Decimal(n)), IntValue(n), float) && Writable(W(Decimal(n)))
  {
    DecimalRead(n);
    DecimalWord(n);
    NumberIsNoWord(Decimal(n));
  }

  lemma NullSpelled(float: FloatParser)
    ensures LiteralSpells(W("null"), NullValue, float) && Writable(W("null"))
  {
    SpellsItself("null", {"null"});
  }

  lemma TruthSpelled(b: bool, float: FloatParser)
    ensures LiteralSpells(W(BoolWord(b)), BoolValue(b), float) && Writable(W(BoolWord(b)))
  {
    BoolSpelled(b);
  }

  lemma ValueSpelled(v: Value, float: FloatParser)
    requires !v.FloatValue? && (v.IntValue? ==> IsI64(v.n))
    ensures LiteralSpells(ValueToken(v), v, float) && Writable(ValueToken(v))
  {
    if v.IntValue? {
      IntSpelled(v.n, float);
    } else if v.BoolValue? {
      TruthSpelled(v.b, float);
    } else if v.NullValue? {
      NullSpelled(float);
    }
  }

  /** Every default except floats is read back from its token. */
  lemma ValueRead(v: Value, float: FloatParser)
    requires !v.FloatValue? && (v.IntValue? ==> IsI64(v.n))
    ensures Literal(ValueToken(v), float) == v
  {
    ValueSpelled(v, float);
    LiteralIff(ValueToken(v), v, float);
  }

  // ---- properties ----

  function RequiredFor(d: PropertyDef): seq<Modifier> {
    if d.required then [Required(W("required"))] else []
  }

  function IndexFor(d: PropertyDef): seq<Modifier> {
    if d.index.Some? then [Indexed(W("index"), Q(IndexWord(d.index.value)), d.index.value)] else []
  }

  function DefaultFor(d: PropertyDef): seq<Modifier>
    requires PlainDefault(d)
  {
    if d.fallback.Some? then [Default(W("default"), ValueToken(d.fallback.value), d.fallback.value)] else []
  }

  function TextFor(name: string, d: PropertyDef): PropertyText
    requires PlainDefault(d)
  {
    PropertyText(Q(name), Q(TypeWord(d.kind)), d.kind, RequiredFor(d) + (IndexFor(d) + DefaultFor(d)))
  }

  /** Well spelled, and of tokens that can be written. */
  ghost predicate GoodModifier(m: Modifier, float: FloatParser) {
    ValidModifier(m, float) && AllWritable(ModifierTokens(m))
  }

  lemma RequiredGood(float: FloatParser)
    ensures GoodModifier(Required(W("required")), float)
  {
    PlainKeyword("required");
  }

  lemma IndexGood(i: IndexType, float: FloatParser)
    ensures GoodModifier(Indexed(W("index"), Q(IndexWord(i)), i), float)
  {
    PlainKeyword("index");
    IndexSpelled(i);
  }

  lemma DefaultGood(v: Value, float: FloatParser)
    requires !v.FloatValue? && (v.IntValue? ==> IsI64(v.n))
    ensures GoodModifier(Default(W("default"), ValueToken(v), v), float)
  {
    PlainKeyword("default");
    ValueSpelled(v, float);
  }

  lemma ModifiersGood(d: PropertyDef, float: FloatParser)
    requires PlainDefault(d)
    ensures forall m :: m in RequiredFor(d) + (IndexFor(d) + DefaultFor(d)) ==> GoodModifier(m, float)
  {
    RequiredGood(float);
    if d.index.Some? {
      IndexGood(d.index.value, float);
    }
    if d.fallback.Some? {
      DefaultGood(d.fallback.value, float);
    }
  }

  lemma {:induction false} FoldAppend<X, S>(s: S, a: seq<X>, b: seq<X>, step: (S, X) -> S)
    ensures Fold(s, a + b, step) == Fold(Fold(s, a, step), b, step)
    decreases |a|
  {
    if a == [] {
      assert a + b == b;
    } else {
      assert (a + b)[1..] == a[1..] + b;
      FoldAppend(step(s, a[0]), a[1..], b, step);
    }
  }

  lemma FoldOne<X, S>(s: S, x: X, step: (S, X) -> S)
    ensures Fold(s, [x], step) == step(s, x)
  {
    assert [x][1..] == [];
  }

  lemma DefFor(name: string, d: PropertyDef)
    requires PlainDefault(d)
    ensures DefOf(TextFor(name, d)) == d
  {
    var a, b, c := RequiredFor(d), IndexFor(d), DefaultFor(d);
    var d0 := PropertyDef(d.kind, false, None, None);
    var d1 := d0.(required := d.required);
    var d2 := d1.(index := d.index);
    FoldAppend(d0, a, b + c, Modified);
    FoldAppend(d1, b, c, Modified);
    if d.required {
      FoldOne(d0, a[0], Modified);
    }
    if d.index.Some? {
      FoldOne(d1, b[0], Modified);
    }
    if d.fallback.Some? {
      FoldOne(d2, c[0], Modified);
    }
  }

  lemma BothWritable(a: seq<Token>, b: seq<Token>)
    requires AllWritable(a) && AllWritable(b)
    ensures AllWritable(a + b)
  {
  }

  lemma {:induction false} ConcatWritable<X>(items: seq<X>, tokens: X -> seq<Token>)
    requires forall x :: x in items ==> AllWritable(tokens(x))
    ensures AllWritable(Concat(items, tokens))
    decreases |items|
  {
    if items != [] {
      assert items[0] in items;
      ConcatWritable(items[1..], tokens);
      BothWritable(tokens(items[0]), Concat(items[1..], tokens));
    }
  }

  lemma PropertyGood(name: string, d: PropertyDef, float: FloatParser)
    requires PlainDefault(d)
    ensures ValidProperty(TextFor(name, d), float) && AllWritable(PropertyTokens(TextFor(name, d)))
    ensures DefOf(TextFor(name, d)) == d
  {
    var p := TextFor(name, d);
    DefFor(name, d);
    TypeSpelled(d.kind);
    ModifiersGood(d, float);
    forall m | m in p.modifiers
      ensures AllWritable(ModifierTokens(m))
    {
      assert GoodModifier(m, float);
    }
    forall i | 0 <= i < |p.modifiers|
      ensures ValidModifier(p.modifiers[i], float)
    {
      assert GoodModifier(p.modifiers[i], float);
    }
    ConcatWritable(p.modifiers, ModifierTokens);
    BothWritable([p.name, p.kindName], Concat(p.modifiers, ModifierTokens));
  }

  /** A listing, and that it means the map and can be written. */
  ghost predicate GoodList(l: Listing<PropertyText>, m: PropertyMap, float: FloatParser) {
    && ValidList(l, float) && ListOf(l) == m
    && (forall p :: p in l.items ==> AllWritable(PropertyTokens(p)))
  }

  lemma {:induction false} ListFor(m: PropertyMap, float: FloatParser) returns (l: Listing<PropertyText>)
    requires forall k :: k in m ==> PlainDefault(m[k])
    ensures GoodList(l, m, float) && !l.trailing
    decreases |m|
  {
    if m == map[] {
      l := Listing([], false);
    } else {
      var k :| k in m;
      assert m.Keys - {k} < m.Keys;
      var rest := ListFor(m - {k}, float);
      l := Listing(rest.items + [TextFor(k, m[k])], false);
      PropertyGood(k, m[k], float);
      OneMoreProperty(m, k, rest, TextFor(k, m[k]), float);
    }
  }

  lemma OneMoreProperty(m: PropertyMap, k: string, l: Listing<PropertyText>, p: PropertyText, float: FloatParser)
    requires k in m && GoodList(l, m - {k}, float) && p.name.text == k && DefOf(p) == m[k]
    requires ValidProperty(p, float) && AllWritable(PropertyTokens(p))
    ensures GoodList(Listing(l.items + [p], false), m, float)
  {
    FoldAppend(map[], l.items, [p], WithProperty);
    FoldOne(m - {k}, p, WithProperty);
    assert (m - {k})[k := m[k]] == m;
  }

  lemma SymbolsWritable()
    ensures AllWritable([W("(")]) && AllWritable([W(")")]) && AllWritable([W(",")]) && AllWritable([W("=")])
  {
  }

  lemma ListWritable<X>(l: Listing<X>, tokens: X -> seq<Token>)
    requires !l.trailing && forall x :: x in l.items ==> AllWritable(tokens(x))
    ensures AllWritable(ListTokens(l, tokens))
  {
    SymbolsWritable();
    forall x | x in l.items
      ensures AllWritable(WithComma(tokens)(x))
    {
      BothWritable(tokens(x), [W(",")]);
    }
    if l.items == [] {
      BothWritable(Concat(l.items, WithComma(tokens)), [W(")")]);
    } else {
      var n := |l.items| - 1;
      ConcatWritable(l.items[..n], WithComma(tokens));
      BothWritable(tokens(l.items[n]), [W(")")]);
      BothWritable(Concat(l.items[..n], WithComma(tokens)), tokens(l.items[n]) + [W(")")]);
    }
  }

  // ---- edges ----

  /** The target is one the syntax can name. */
  predicate PlainTarget(t: Target) {
    t.SpecificType? ==> Trimmed(t.name) && t.name != "*" && !CaseOf(t.name, "polymorphic")
  }

  /** A specific target is read back as itself exactly when it is trimmed and no word for any type. */
  lemma TargetReadIff(t: string)
    ensures TargetOf(t) == SpecificType(t) <==> PlainTarget(SpecificType(t))
  {
    TargetIff(t, SpecificType(t));
    if Trimmed(t) {
      TrimTrimmed(t);
    }
  }

  function TargetToken(t: Target): Token {
    Q(if t.Polymorphic? then "*" else t.name)
  }

  lemma TargetSpelled(t: Target)
    requires PlainTarget(t)
    ensures TargetSpells(TargetToken(t).text, t)
  {
    TrimTrimmed(TargetToken(t).text);
  }

  ghost predicate PlainEdge(e: EdgeDef) {
    PlainTarget(e.target) && forall k :: k in e.properties ==> PlainDefault(e.properties[k])
  }

  function PartsFor(e: EdgeDef, l: Listing<PropertyText>): seq<EdgePartText> {
    [BlockPart(l),
     DirectionPart(W("direction"), Q(DirectionWord(e.direction)), e.direction),
     OwnershipPart(W("ownership"), Q(OwnershipWord(e.ownership)), e.ownership),
     SortKeyPart(W("sort_key"), Q(e.sortKey))]
  }

  ghost predicate GoodPart(p: EdgePartText, float: FloatParser) {
    ValidPart(p, float) && AllWritable(PartTokens(p))
  }

  lemma PairWritable(t: Token, name: string)
    requires Writable(t)
    ensures AllWritable([t, Q(name)])
  {
  }

  lemma BlockGood(l: Listing<PropertyText>, m: PropertyMap, float: FloatParser)
    requires GoodList(l, m, float) && !l.trailing
    ensures GoodPart(BlockPart(l), float)
  {
    SymbolsWritable();
    ListWritable(l, PropertyTokens);
    BothWritable([W("(")], ListTokens(l, PropertyTokens));
  }

  lemma DirectionKeyword()
    ensures Word(W("direction"), "direction") && Writable(W("direction"))
  {
    PlainKeyword("direction");
  }

  lemma DirectionGood(d: Direction, float: FloatParser)
    ensures GoodPart(DirectionPart(W("direction"), Q(DirectionWord(d)), d), float)
  {
    DirectionKeyword();
    DirectionSpelled(d);
    PairWritable(W("direction"), DirectionWord(d));
  }

  lemma OwnershipKeyword()
    ensures Word(W("ownership"), "ownership") && Writable(W("ownership"))
  {
    PlainKeyword("ownership");
  }

  lemma OwnershipGood(o: Ownership, float: FloatParser)
    ensures GoodPart(OwnershipPart(W("ownership"), Q(OwnershipWord(o)), o), float)
  {
    OwnershipKeyword();
    OwnershipSpelled(o);
    PairWritable(W("ownership"), OwnershipWord(o));
  }

  lemma SortKeyGood(key: string, float: FloatParser)
    ensures GoodPart(SortKeyPart(W("sort_key"), Q(key)), float)
  {
    PlainKeyword("sort_key");
  }

  lemma FoldTwo<X, S>(s: S, a: X, b: X, step: (S, X) -> S)
    ensures Fold(s, [a, b], step) == step(step(s, a), b)
  {
    FoldAppend(s, [a], [b], step);
    assert [a] + [b] == [a, b];
    FoldOne(s, a, step);
    FoldOne(step(s, a), b, step);
  }

  lemma FoldFour<X, S>(s: S, a: X, b: X, c: X, d: X, step: (S, X) -> S)
    ensures Fold(s, [a, b, c, d], step) == step(step(step(step(s, a), b), c), d)
  {
    FoldAppend(s, [a, b], [c, d], step);
    assert [a, b] + [c, d] == [a, b, c, d];
    FoldTwo(s, a, b, step);
    FoldTwo(step(step(s, a), b), c, d, step);
  }

  lemma PartsMean(e: EdgeDef, l: Listing<PropertyText>)
    requires ListOf(l) == e.properties
    ensures Fold(EdgeDef(e.target, Outgoing, map[], "", SourceSite), PartsFor(e, l), WithPart) == e
  {
    var ps, e0 := PartsFor(e, l), EdgeDef(e.target, Outgoing, map[], "", SourceSite);
    assert ps == [ps[0], ps[1], ps[2], ps[3]];
    FoldFour(e0, ps[0], ps[1], ps[2], ps[3], WithPart);
  }

  lemma PartsGood(e: EdgeDef, l: Listing<PropertyText>, float: FloatParser)
    requires GoodList(l, e.properties, float) && !l.trailing
    ensures ValidParts(PartsFor(e, l), float) && AllWritable(Concat(PartsFor(e, l), PartTokens))
  {
    var ps := PartsFor(e, l);
    BlockGood(l, e.properties, float);
    DirectionGood(e.direction, float);
    OwnershipGood(e.ownership, float);
    SortKeyGood(e.sortKey, float);
    FourGood(ps, ps[0], ps[1], ps[2], ps[3], float);
  }

  lemma EachOfFour<X>(xs: seq<X>, a: X, b: X, c: X, d: X, p: X -> bool)
    requires xs == [a, b, c, d] && p(a) && p(b) && p(c) && p(d)
    ensures forall i :: 0 <= i < |xs| ==> p(xs[i])
  {
  }

  lemma FourValid(ps: seq<EdgePartText>, a: EdgePartText, b: EdgePartText, c: EdgePartText, d: EdgePartText,
                  float: FloatParser)
    requires ps == [a, b, c, d]
    requires ValidPart(a, float) && ValidPart(b, float) && ValidPart(c, float) && ValidPart(d, float)
    ensures ValidParts(ps, float)
  {
    EachOfFour(ps, a, b, c, d, p => ValidPart(p, float));
  }

  lemma FourGood(ps: seq<EdgePartText>, a: EdgePartText, b: EdgePartText, c: EdgePartText, d: EdgePartText,
                 float: FloatParser)
    requires ps == [a, b, c, d] && GoodPart(a, float) && GoodPart(b, float) && GoodPart(c, float) && GoodPart(d, float)
    ensures ValidParts(ps, float) && AllWritable(Concat(ps, PartTokens))
  {
    FourValid(ps, a, b, c, d, float);
    ConcatWritable(ps, PartTokens);
  }

  lemma EdgeHeader(name: string, t: Target)
    ensures AllWritable([Q(name), W("to"), TargetToken(t)]) && Word(W("to"), "to")
  {
    PlainKeyword("to");
  }

  lemma EdgeFor(name: string, e: EdgeDef, float: FloatParser) returns (t: EdgeText)
    requires PlainEdge(e)
    ensures ValidEdge(t, float) && t.name.text == name && EdgeOf(t) == e && AllWritable(EdgeTokens(t))
  {
    var l := ListFor(e.properties, float);
    var ps := PartsFor(e, l);
    t := EdgeText(Q(name), W("to"), TargetToken(e.target), e.target, ps);
    EdgeHeader(name, e.target);
    TargetSpelled(e.target);
    PartsMean(e, l);
    PartsGood(e, l, float);
    BothWritable([t.name, t.to, t.target], Concat(ps, PartTokens));
  }

  // ---- clauses ----

  ghost predicate GoodClause(c: Clause, float: FloatParser) {
    ValidClause(c, float) && AllWritable(ClauseTokens(c))
  }

  ghost predicate GoodClauses(cs: seq<Clause>, float: FloatParser) {
    forall i :: 0 <= i < |cs| ==> GoodClause(cs[i], float)
  }

  lemma EdgeClauseFor(name: string, e: EdgeDef, float: FloatParser) returns (c: Clause)
    requires PlainEdge(e)
    ensures GoodClause(c, float)
    ensures forall s: Schema :: WithOneClause(s, c) == s.(edges := s.edges[name := e])
  {
    var t := EdgeFor(name, e, float);
    c := Edge(W("edge"), t);
    PlainKeyword("edge");
    BothWritable([W("edge")], EdgeTokens(t));
  }

  lemma {:induction false} EdgesFor(m: map<string, EdgeDef>, s: Schema, float: FloatParser) returns (cs: seq<Clause>)
    requires s.edges == map[] && forall k :: k in m ==> PlainEdge(m[k])
    ensures GoodClauses(cs, float) && Fold(s, cs, WithOneClause) == s.(edges := m)
    decreases |m|
  {
    if m == map[] {
      cs := [];
    } else {
      var k :| k in m;
      assert m.Keys - {k} < m.Keys;
      var rest := EdgesFor(m - {k}, s, float);
      var c := EdgeClauseFor(k, m[k], float);
      cs := rest + [c];
      OneMoreEdge(m, k, s, rest, c);
    }
  }

  lemma OneMoreEdge(m: map<string, EdgeDef>, k: string, s: Schema, rest: seq<Clause>, c: Clause)
    requires k in m && Fold(s, rest, WithOneClause) == s.(edges := m - {k})
    requires WithOneClause(s.(edges := m - {k}), c) == s.(edges := (m - {k})[k := m[k]])
    ensures Fold(s, rest + [c], WithOneClause) == s.(edges := m)
  {
    FoldAppend(s, rest, [c], WithOneClause);
    FoldOne(s.(edges := m - {k}), c, WithOneClause);
    assert (m - {k})[k := m[k]] == m;
  }

  function OptionsFor(m: Meta): Listing<OptionText> {
    Listing([AllowOption(Q("allow_undeclared_edges"), Q(BoolWord(m.allowUndeclaredEdges)), m.allowUndeclaredEdges),
             ExtrasOption(Q("extras_policy"), Q(ExtrasWord(m.extras)), m.extras)], false)
  }

  lemma KeySpelled()
    ensures Spells(Trim("allow_undeclared_edges"), "allow_undeclared_edges")
    ensures Spells(Trim("extras_policy"), "extras_policy")
  {
    SpellsItself("allow_undeclared_edges", {"allow_undeclared_edges"});
    SpellsItself("extras_policy", {"extras_policy"});
  }

  lemma AllowValid(m: Meta)
    ensures ValidOption(OptionsFor(m).items[0])
  {
    KeySpelled();
    BoolSpelled(m.allowUndeclaredEdges);
  }

  lemma ExtrasValid(m: Meta)
    ensures ValidOption(OptionsFor(m).items[1])
  {
    KeySpelled();
    ExtrasSpelled(m.extras);
  }

  lemma OptionsValid(m: Meta)
    ensures ValidOptions(OptionsFor(m))
  {
    AllowValid(m);
    ExtrasValid(m);
  }

  lemma OptionsMean(m: Meta)
    ensures MetaOf(OptionsFor(m)) == m
  {
    var items := OptionsFor(m).items;
    assert items == [items[0], items[1]];
    FoldTwo(Meta(false, Unspecified), items[0], items[1], WithOption);
  }

  lemma OptionsWritable(m: Meta)
    ensures AllWritable(ListTokens(OptionsFor(m), OptionTokens))
  {
    SymbolsWritable();
    ListWritable(OptionsFor(m), OptionTokens);
  }

  function WithFor(meta: Option<Meta>): seq<Clause> {
    if meta.Some? then [With(W("with"), OptionsFor(meta.value))] else []
  }

  lemma WithClauseGood(m: Meta, float: FloatParser)
    ensures GoodClause(With(W("with"), OptionsFor(m)), float)
  {
    PlainKeyword("with");
    OptionsValid(m);
    OptionsWritable(m);
    OpenWritable(W("with"), ListTokens(OptionsFor(m), OptionTokens));
  }

  lemma OpenWritable(t: Token, ts: seq<Token>)
    requires Writable(t) && AllWritable(ts)
    ensures AllWritable([t, W("(")] + ts)
  {
    SymbolsWritable();
    BothWritable([t], [W("(")]);
    assert [t, W("(")] == [t] + [W("(")];
    BothWritable([t, W("(")], ts);
  }

  lemma WithGood(meta: Option<Meta>, s: Schema, float: FloatParser)
    requires s.meta.None?
    ensures GoodClauses(WithFor(meta), float) && Fold(s, WithFor(meta), WithOneClause) == s.(meta := meta)
  {
    if meta.Some? {
      WithClauseGood(meta.value, float);
      OptionsMean(meta.value);
      FoldOne(s, With(W("with"), OptionsFor(meta.value)), WithOneClause);
    }
  }

  lemma ClausesFor(meta: Option<Meta>, edges: map<string, EdgeDef>, s: Schema, float: FloatParser) returns (cs: seq<Clause>)
    requires s.edges == map[] && s.meta.None? && forall k :: k in edges ==> PlainEdge(edges[k])
    ensures ValidClauses(cs, float) && AllWritable(Concat(cs, ClauseTokens))
    ensures Fold(s, cs, WithOneClause) == s.(meta := meta, edges := edges)
  {
    var a := WithFor(meta);
    var b := EdgesFor(edges, s.(meta := meta), float);
    WithGood(meta, s, float);
    cs := a + b;
    FoldAppend(s, a, b, WithOneClause);
    GoodTogether(a, b, float);
  }

  lemma GoodTogether(a: seq<Clause>, b: seq<Clause>, float: FloatParser)
    requires GoodClauses(a, float) && GoodClauses(b, float)
    ensures ValidClauses(a + b, float) && AllWritable(Concat(a + b, ClauseTokens))
  {
    forall i | 0 <= i < |a + b|
      ensures GoodClause((a + b)[i], float)
    {
      if i >= |a| {
        assert (a + b)[i] == b[i - |a|];
      }
    }
    ConcatWritable(a + b, ClauseTokens);
  }

  lemma HeaderGood(name: string)
    ensures AllWritable([W("create"), W("type"), Q(name), W("(")])
    ensures Word(W("create"), "create") && Word(W("type"), "type")
  {
    PlainKeyword("create");
    PlainKeyword("type");
    SymbolsWritable();
  }

  /** Every schema without float defaults and with nameable edge targets has a text that is read as it. */
  lemma EverySchemaHasText(schema: Schema, float: FloatParser) returns (text: string)
    requires forall k :: k in schema.properties ==> PlainDefault(schema.properties[k])
    requires forall k :: k in schema.edges ==> PlainEdge(schema.edges[k])
    ensures ParseSql(text, float) == Some(schema)
  {
    var l := ListFor(schema.properties, float);
    var cs := ClausesFor(schema.meta, schema.edges, Schema(schema.name, ListOf(l), map[], None), float);
    var s := SchemaText(W("create"), W("type"), Q(schema.name), l, cs);
    HeaderGood(schema.name);
    ListWritable(l, PropertyTokens);
    BothWritable(ListTokens(l, PropertyTokens), Concat(cs, ClauseTokens));
    BothWritable([s.create, s.kind, s.name, W("(")], ListTokens(l, PropertyTokens) + Concat(cs, ClauseTokens));
    var es := ElementsFor(SchemaTokens(s));
    ElementsForAre(SchemaTokens(s));
    RoundTrip(s, es, float);
    text := TextOf(es);
  }
}
