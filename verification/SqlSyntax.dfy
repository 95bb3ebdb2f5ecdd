/**
 * The definitions the schema syntax allows, with every choice of spelling, and the schema each one
 * stands for (crates/pelago-cli/src/schema_input.rs).
 */
module SqlSyntax {
  import opened Common
  import opened Text
  import opened Numbers
  import opened SqlLexer
  import opened SqlGrammar

  // ---- words ----

  predicate UpperOf(c: char, w: char) {
    'a' <= w <= 'z' && c as int == w as int - 32
  }

  /** The word with any of its letters capital. */
  predicate CaseOf(s: string, w: string) {
    |s| == |w| && forall i :: 0 <= i < |w| ==> s[i] == w[i] || UpperOf(s[i], w[i])
  }

  predicate Capital(c: char) {
    'A' <= c <= 'Z'
  }

  /** Hyphens and spaces may stand for underscores; words have no capitals, hyphens and spaces of their own. */
  predicate CharSpells(c: char, w: char) {
    && !Capital(w) && w != '-' && w != ' '
    && (c == w || UpperOf(c, w) || (w == '_' && (c == '-' || c == ' ')))
  }

  predicate Spells(s: string, w: string) {
    |s| == |w| && forall i :: 0 <= i < |w| ==> CharSpells(s[i], w[i])
  }

  /** The text spells one of the words, with spaces around it or not. */
  ghost predicate SpellsOne(text: string, words: set<string>) {
    exists w :: w in words && Spells(Trim(text), w)
  }

  predicate PlainChar(c: char) {
    'a' <= c <= 'z' || c == '_'
  }

  predicate PlainWord(w: string) {
    w != [] && forall i :: 0 <= i < |w| ==> PlainChar(w[i])
  }

  function TypeWords(t: PropertyType): set<string> {
    match t
    case StringType => {"string", "str", "property_type_string"}
    case IntType => {"int", "integer", "i64", "property_type_int"}
    case FloatType => {"float", "double", "f64", "property_type_float"}
    case BoolType => {"bool", "boolean", "property_type_bool"}
    case TimestampType => {"timestamp", "time", "property_type_timestamp"}
    case BytesType => {"bytes", "binary", "property_type_bytes"}
  }

  function IndexWords(i: IndexType): set<string> {
    match i
    case NoIndex => {"none", "index_type_none"}
    case Unique => {"unique", "index_type_unique"}
    case Equality => {"equality", "eq", "index_type_equality"}
    case Range => {"range", "index_type_range"}
  }

  function ExtrasWords(e: ExtrasPolicy): set<string> {
    match e
    case Unspecified => {"unspecified", "extras_policy_unspecified"}
    case Reject => {"reject", "extras_policy_reject"}
    case Allow => {"allow", "extras_policy_allow"}
    case Warn => {"warn", "extras_policy_warn"}
  }

  function DirectionWords(d: Direction): set<string> {
    match d
    case Outgoing => {"outgoing", "edge_direction_def_outgoing", "edge_direction_outgoing"}
    case Bidirectional => {"bidirectional", "edge_direction_def_bidirectional", "edge_direction_bidirectional"}
  }

  function OwnershipWords(o: Ownership): set<string> {
    match o
    case SourceSite => {"source_site", "sourcesite", "ownership_mode_source_site"}
    case Independent => {"independent", "ownership_mode_independent"}
  }

  function BoolWords(b: bool): set<string> {
    if b then {"true"} else {"false"}
  }

  // ---- tokens ----

  function W(w: string): Token {
    Token(w, false)
  }

  /** A keyword, in any letter case. */
  predicate Word(t: Token, w: string) {
    !t.quoted && CaseOf(t.text, w)
  }

  /** A quoted string, or anything but a symbol. */
  predicate NameToken(t: Token) {
    t.quoted || |t.text| != 1 || !IsSymbol(t.text[0])
  }

  ghost predicate NoWord(text: string) {
    !SpellsOne(text, {"true"}) && !SpellsOne(text, {"false"}) && !SpellsOne(text, {"null"})
  }

  /** How a default is written: quoted, as a word, as a number, or bare. */
  ghost predicate LiteralSpells(t: Token, v: Value, float: FloatParser) {
    match v
    case StringValue(s) =>
      t.text == s && (t.quoted || (NoWord(s) && ParseI64(s).None? && float(s).None?))
    case BoolValue(b) => !t.quoted && SpellsOne(t.text, BoolWords(b))
    case NullValue => !t.quoted && SpellsOne(t.text, {"null"})
    case IntValue(n) => !t.quoted && NoWord(t.text) && ParseI64(t.text) == Some(n)
    case FloatValue(bits) => !t.quoted && NoWord(t.text) && ParseI64(t.text).None? && float(t.text) == Some(bits)
  }

  /** Any type, or the type of that name. */
  predicate TargetSpells(text: string, t: Target) {
    var name := Trim(text);
    if name == "*" || CaseOf(name, "polymorphic") then t == Polymorphic else t == SpecificType(name)
  }

  // ---- definitions ----

  datatype Modifier =
    | Required(word: Token)
    | NotNull(first: Token, second: Token)
    | Indexed(word: Token, name: Token, index: IndexType)
    | Default(word: Token, literal: Token, value: Value)

  datatype PropertyText = PropertyText(name: Token, kindName: Token, kind: PropertyType, modifiers: seq<Modifier>)

  /** Items separated by commas, perhaps with one behind the last. */
  datatype Listing<X> = Listing(items: seq<X>, trailing: bool)

  datatype OptionText =
    | AllowOption(key: Token, value: Token, allow: bool)
    | ExtrasOption(key: Token, value: Token, extras: ExtrasPolicy)

  datatype EdgePartText =
    | BlockPart(list: Listing<PropertyText>)
    | DirectionPart(word: Token, name: Token, direction: Direction)
    | OwnershipPart(word: Token, name: Token, ownership: Ownership)
    | SortKeyPart(word: Token, key: Token)
    | SortKeyTwoPart(first: Token, second: Token, key: Token)

  datatype EdgeText = EdgeText(name: Token, to: Token, target: Token, leads: Target, parts: seq<EdgePartText>)

  datatype Clause =
    | Semicolon
    | With(word: Token, options: Listing<OptionText>)
    | Edge(word: Token, edge: EdgeText)

  datatype SchemaText = SchemaText(create: Token, kind: Token, name: Token, list: Listing<PropertyText>, clauses: seq<Clause>)

  // ---- which are well spelled ----

  ghost predicate ValidModifier(m: Modifier, float: FloatParser) {
    match m
    case Required(w) => Word(w, "required")
    case NotNull(a, b) => Word(a, "not") && Word(b, "null")
    case Indexed(w, n, i) => Word(w, "index") && SpellsOne(n.text, IndexWords(i))
    case Default(w, l, v) => Word(w, "default") && LiteralSpells(l, v, float)
  }

  ghost predicate ValidModifiers(ms: seq<Modifier>, float: FloatParser) {
    forall i :: 0 <= i < |ms| ==> ValidModifier(ms[i], float)
  }

  ghost predicate ValidProperty(p: PropertyText, float: FloatParser) {
    NameToken(p.name) && SpellsOne(p.kindName.text, TypeWords(p.kind)) && ValidModifiers(p.modifiers, float)
  }

  ghost predicate ValidList(l: Listing<PropertyText>, float: FloatParser) {
    (l.trailing ==> l.items != []) && forall i :: 0 <= i < |l.items| ==> ValidProperty(l.items[i], float)
  }

  ghost predicate ValidOption(o: OptionText) {
    && NameToken(o.key)
    && match o
       case AllowOption(k, v, b) => Spells(Trim(k.text), "allow_undeclared_edges") && SpellsOne(v.text, BoolWords(b))
       case ExtrasOption(k, v, e) => Spells(Trim(k.text), "extras_policy") && SpellsOne(v.text, ExtrasWords(e))
  }

  ghost predicate ValidOptions(l: Listing<OptionText>) {
    (l.trailing ==> l.items != []) && forall i :: 0 <= i < |l.items| ==> ValidOption(l.items[i])
  }

  ghost predicate ValidPart(p: EdgePartText, float: FloatParser) {
    match p
    case BlockPart(l) => ValidList(l, float)
    case DirectionPart(w, n, d) => Word(w, "direction") && SpellsOne(n.text, DirectionWords(d))
    case OwnershipPart(w, n, o) => Word(w, "ownership") && SpellsOne(n.text, OwnershipWords(o))
    case SortKeyPart(w, k) => Word(w, "sort_key") && NameToken(k)
    case SortKeyTwoPart(a, b, k) => Word(a, "sort") && Word(b, "key") && NameToken(k)
  }

  ghost predicate ValidParts(ps: seq<EdgePartText>, float: FloatParser) {
    forall i :: 0 <= i < |ps| ==> ValidPart(ps[i], float)
  }

  ghost predicate ValidEdge(e: EdgeText, float: FloatParser) {
    && NameToken(e.name) && (Word(e.to, "to") || Word(e.to, "target"))
    && TargetSpells(e.target.text, e.leads) && ValidParts(e.parts, float)
  }

  ghost predicate ValidClause(c: Clause, float: FloatParser) {
    match c
    case Semicolon => true
    case With(w, options) => Word(w, "with") && ValidOptions(options)
    case Edge(w, edge) => Word(w, "edge") && ValidEdge(edge, float)
  }

  ghost predicate ValidClauses(cs: seq<Clause>, float: FloatParser) {
    forall i :: 0 <= i < |cs| ==> ValidClause(cs[i], float)
  }

  ghost predicate ValidSchema(s: SchemaText, float: FloatParser) {
    && Word(s.create, "create") && (Word(s.kind, "type") || Word(s.kind, "schema")) && NameToken(s.name)
    && ValidList(s.list, float) && ValidClauses(s.clauses, float)
  }

  // ---- their tokens ----

  function Concat<X>(items: seq<X>, tokens: X -> seq<Token>): seq<Token> {
    if items == [] then [] else tokens(items[0]) + Concat(items[1..], tokens)
  }

  function ModifierTokens(m: Modifier): seq<Token> {
    match m
    case Required(w) => [w]
    case NotNull(a, b) => [a, b]
    case Indexed(w, n, _) => [w, n]
    case Default(w, l, _) => [w, l]
  }

  function PropertyTokens(p: PropertyText): seq<Token> {
    [p.name, p.kindName] + Concat(p.modifiers, ModifierTokens)
  }

  function OptionTokens(o: OptionText): seq<Token> {
    [o.key, W("="), o.value]
  }

  function WithComma<X>(tokens: X -> seq<Token>): X -> seq<Token> {
    (x: X) => tokens(x) + [W(",")]
  }

  /** The items, and the closing parenthesis. */
  function ListTokens<X>(l: Listing<X>, tokens: X -> seq<Token>): seq<Token> {
    if l.trailing || l.items == [] then Concat(l.items, WithComma(tokens)) + [W(")")]
    else
      var n := |l.items| - 1;
      Concat(l.items[..n], WithComma(tokens)) + (tokens(l.items[n]) + [W(")")])
  }

  function PartTokens(p: EdgePartText): seq<Token> {
    match p
    case BlockPart(l) => [W("(")] + ListTokens(l, PropertyTokens)
    case DirectionPart(w, n, _) => [w, n]
    case OwnershipPart(w, n, _) => [w, n]
    case SortKeyPart(w, k) => [w, k]
    case SortKeyTwoPart(a, b, k) => [a, b, k]
  }

  function EdgeTokens(e: EdgeText): seq<Token> {
    [e.name, e.to, e.target] + Concat(e.parts, PartTokens)
  }

  function ClauseTokens(c: Clause): seq<Token> {
    match c
    case Semicolon => [W(";")]
    case With(w, options) => [w, W("(")] + ListTokens(options, OptionTokens)
    case Edge(w, edge) => [w] + EdgeTokens(edge)
  }

  function SchemaTokens(s: SchemaText): seq<Token> {
    [s.create, s.kind, s.name, W("(")] + (ListTokens(s.list, PropertyTokens) + Concat(s.clauses, ClauseTokens))
  }

  // ---- what they mean ----

  /** One item after the other, each changing what was said before. */
  function Fold<X, S>(s: S, items: seq<X>, step: (S, X) -> S): S
    decreases |items|
  {
    if items == [] then s else Fold(step(s, items[0]), items[1..], step)
  }

  function Modified(d: PropertyDef, m: Modifier): PropertyDef {
    match m
    case Required(_) => d.(required := true)
    case NotNull(_, _) => d.(required := true)
    case Indexed(_, _, i) => d.(index := Some(i))
    case Default(_, _, v) => d.(fallback := Some(v))
  }

  function DefOf(p: PropertyText): PropertyDef {
    Fold(PropertyDef(p.kind, false, None, None), p.modifiers, Modified)
  }

  function WithProperty(seen: PropertyMap, p: PropertyText): PropertyMap {
    seen[p.name.text := DefOf(p)]
  }

  function ListOf(l: Listing<PropertyText>): PropertyMap {
    Fold(map[], l.items, WithProperty)
  }

  function WithOption(meta: Meta, o: OptionText): Meta {
    match o
    case AllowOption(_, _, b) => meta.(allowUndeclaredEdges := b)
    case ExtrasOption(_, _, e) => meta.(extras := e)
  }

  function MetaOf(l: Listing<OptionText>): Meta {
    Fold(Meta(false, Unspecified), l.items, WithOption)
  }

  function WithPart(e: EdgeDef, p: EdgePartText): EdgeDef {
    match p
    case BlockPart(l) => e.(properties := ListOf(l))
    case DirectionPart(_, _, d) => e.(direction := d)
    case OwnershipPart(_, _, o) => e.(ownership := o)
    case SortKeyPart(_, k) => e.(sortKey := k.text)
    case SortKeyTwoPart(_, _, k) => e.(sortKey := k.text)
  }

  function EdgeOf(e: EdgeText): EdgeDef {
    Fold(EdgeDef(e.leads, Outgoing, map[], "", SourceSite), e.parts, WithPart)
  }

  function WithOneClause(s: Schema, c: Clause): Schema {
    match c
    case Semicolon => s
    case With(_, options) => s.(meta := Some(MetaOf(options)))
    case Edge(_, edge) => s.(edges := s.edges[edge.name.text := EdgeOf(edge)])
  }

  function SchemaOf(s: SchemaText): Schema {
    Fold(Schema(s.name.text, ListOf(s.list), map[], None), s.clauses, WithOneClause)
  }

  // ---- reading words ----

  lemma LowerIff(c: char, w: char)
    requires PlainChar(w)
    ensures LowerChar(c) == LowerChar(w) <==> c == w || UpperOf(c, w)
  {
  }

  lemma NormalCharIff(c: char, w: char)
    ensures NormalChar(c) == w <==> CharSpells(c, w)
  {
  }

  lemma SameIff(s: string, w: string)
    requires PlainWord(w)
    ensures SameIgnoringCase(s, w) <==> CaseOf(s, w)
  {
    if |s| == |w| {
      forall i | 0 <= i < |w|
        ensures LowerChar(s[i]) == LowerChar(w[i]) <==> s[i] == w[i] || UpperOf(s[i], w[i])
      {
        LowerIff(s[i], w[i]);
      }
    }
  }

  lemma NormalIff(text: string, w: string)
    ensures Normalize(text) == w <==> Spells(Trim(text), w)
  {
    var t, n := Trim(text), Normalize(text);
    if |t| == |w| {
      forall i | 0 <= i < |w|
        ensures n[i] == w[i] <==> CharSpells(t[i], w[i])
      {
        NormalCharIff(t[i], w[i]);
      }
    }
  }

  /** A text spells at most one keyword. */
  lemma CaseUnique(s: string, a: string, b: string)
    requires CaseOf(s, a) && CaseOf(s, b) && PlainWord(a) && PlainWord(b)
    ensures a == b
  {
    forall i | 0 <= i < |s|
      ensures a[i] == b[i]
    {
    }
  }

  lemma OneIff(text: string, words: set<string>)
    ensures SpellsOne(text, words) <==> Normalize(text) in words
  {
    if Normalize(text) in words {
      NormalIff(text, Normalize(text));
    }
    if w :| w in words && Spells(Trim(text), w) {
      NormalIff(text, w);
    }
  }

  lemma TypeNamedIff(n: string, t: PropertyType)
    ensures TypeNamed(n) == Some(t) <==> n in TypeWords(t)
  {
  }

  lemma TypeIff(text: string, t: PropertyType)
    ensures TypeOf(text) == Some(t) <==> SpellsOne(text, TypeWords(t))
  {
    OneIff(text, TypeWords(t));
    TypeNamedIff(Normalize(text), t);
  }

  lemma IndexNamedIff(n: string, i: IndexType)
    ensures IndexNamed(n) == Some(i) <==> n in IndexWords(i)
  {
  }

  lemma IndexIff(text: string, i: IndexType)
    ensures IndexOf(text) == Some(i) <==> SpellsOne(text, IndexWords(i))
  {
    OneIff(text, IndexWords(i));
    IndexNamedIff(Normalize(text), i);
  }

  lemma ExtrasNamedIff(n: string, e: ExtrasPolicy)
    ensures ExtrasNamed(n) == Some(e) <==> n in ExtrasWords(e)
  {
  }

  lemma ExtrasIff(text: string, e: ExtrasPolicy)
    ensures ExtrasOf(text) == Some(e) <==> SpellsOne(text, ExtrasWords(e))
  {
    OneIff(text, ExtrasWords(e));
    ExtrasNamedIff(Normalize(text), e);
  }

  lemma DirectionNamedIff(n: string, d: Direction)
    ensures DirectionNamed(n) == Some(d) <==> n in DirectionWords(d)
  {
  }

  lemma DirectionIff(text: string, d: Direction)
    ensures DirectionOf(text) == Some(d) <==> SpellsOne(text, DirectionWords(d))
  {
    OneIff(text, DirectionWords(d));
    DirectionNamedIff(Normalize(text), d);
  }

  lemma OwnershipNamedIff(n: string, o: Ownership)
    ensures OwnershipNamed(n) == Some(o) <==> n in OwnershipWords(o)
  {
  }

  lemma OwnershipIff(text: string, o: Ownership)
    ensures OwnershipOf(text) == Some(o) <==> SpellsOne(text, OwnershipWords(o))
  {
    OneIff(text, OwnershipWords(o));
    OwnershipNamedIff(Normalize(text), o);
  }

  lemma BoolNamedIff(n: string, b: bool)
    ensures BoolNamed(n) == Some(b) <==> n in BoolWords(b)
  {
  }

  lemma BoolIff(text: string, b: bool)
    ensures BoolOf(text) == Some(b) <==> SpellsOne(text, BoolWords(b))
  {
    OneIff(text, BoolWords(b));
    BoolNamedIff(Normalize(text), b);
  }

  lemma NullIff(text: string)
    ensures Normalize(text) == "null" <==> SpellsOne(text, {"null"})
  {
    OneIff(text, {"null"});
  }

  /** Every default, and how it is written. */
  lemma LiteralIff(t: Token, v: Value, float: FloatParser)
    ensures Literal(t, float) == v <==> LiteralSpells(t, v, float)
  {
    BoolIff(t.text, true);
    BoolIff(t.text, false);
    NullIff(t.text);
  }

  lemma TargetIff(text: string, t: Target)
    ensures TargetOf(text) == t <==> TargetSpells(text, t)
  {
    SameIff(Trim(text), "polymorphic");
  }

  lemma KeywordIff(ts: seq<Token>, w: string)
    requires PlainWord(w)
    ensures Keyword(ts, w) <==> ts != [] && Word(ts[0], w)
  {
    if ts != [] {
      SameIff(ts[0].text, w);
    }
  }

  lemma NameIff(ts: seq<Token>)
    ensures Identifier(ts) == if ts != [] && NameToken(ts[0]) then Some(ts[0].text) else None
  {
  }
}
