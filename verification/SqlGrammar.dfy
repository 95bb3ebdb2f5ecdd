/** Schemas, and the grammar of their SQL-like definitions (crates/pelago-cli/src/schema_input.rs). */
module SqlGrammar {
  import opened Common
  import opened Text
  import opened Numbers
  import opened SqlLexer

  // ---- schemas ----

  datatype PropertyType = StringType | IntType | FloatType | BoolType | TimestampType | BytesType

  datatype IndexType = NoIndex | Unique | Equality | Range

  datatype ExtrasPolicy = Unspecified | Reject | Allow | Warn

  datatype Direction = Outgoing | Bidirectional

  datatype Ownership = SourceSite | Independent

  datatype Value = StringValue(s: string) | IntValue(n: int) | FloatValue(bits: int) | BoolValue(b: bool) | NullValue

  datatype PropertyDef = PropertyDef(kind: PropertyType, required: bool, index: Option<IndexType>, fallback: Option<Value>)

  datatype Target = SpecificType(name: string) | Polymorphic

  type PropertyMap = map<string, PropertyDef>

  datatype EdgeDef = EdgeDef(target: Target, direction: Direction, properties: PropertyMap, sortKey: string, ownership: Ownership)

  datatype Meta = Meta(allowUndeclaredEdges: bool, extras: ExtrasPolicy)

  datatype Schema = Schema(name: string, properties: PropertyMap, edges: map<string, EdgeDef>, meta: Option<Meta>)

  // ---- words ----

  function LowerChar(c: char): char {
    if 'A' <= c <= 'Z' then (c as int + 32) as char else c
  }

  predicate SameIgnoringCase(a: string, b: string) {
    |a| == |b| && forall i :: 0 <= i < |a| ==> LowerChar(a[i]) == LowerChar(b[i])
  }

  function NormalChar(c: char): char {
    if c == '-' || c == ' ' then '_' else LowerChar(c)
  }

  function Normalize(s: string): string {
    var t := Trim(s);
    seq(|t|, i requires 0 <= i < |t| => NormalChar(t[i]))
  }

  function TypeOf(text: string): Option<PropertyType> {
    TypeNamed(Normalize(text))
  }

  function TypeNamed(n: string): Option<PropertyType> {
    if n == "string" || n == "str" || n == "property_type_string" then Some(StringType)
    else if n == "int" || n == "integer" || n == "i64" || n == "property_type_int" then Some(IntType)
    else if n == "float" || n == "double" || n == "f64" || n == "property_type_float" then Some(FloatType)
    else if n == "bool" || n == "boolean" || n == "property_type_bool" then Some(BoolType)
    else if n == "timestamp" || n == "time" || n == "property_type_timestamp" then Some(TimestampType)
    else if n == "bytes" || n == "binary" || n == "property_type_bytes" then Some(BytesType)
    else None
  }

  function IndexOf(text: string): Option<IndexType> {
    IndexNamed(Normalize(text))
  }

  function IndexNamed(n: string): Option<IndexType> {
    if n == "none" || n == "index_type_none" then Some(NoIndex)
    else if n == "unique" || n == "index_type_unique" then Some(Unique)
    else if n == "equality" || n == "eq" || n == "index_type_equality" then Some(Equality)
    else if n == "range" || n == "index_type_range" then Some(Range)
    else None
  }

  function ExtrasOf(text: string): Option<ExtrasPolicy> {
    ExtrasNamed(Normalize(text))
  }

  function ExtrasNamed(n: string): Option<ExtrasPolicy> {
    if n == "reject" || n == "extras_policy_reject" then Some(Reject)
    else if n == "allow" || n == "extras_policy_allow" then Some(Allow)
    else if n == "warn" || n == "extras_policy_warn" then Some(Warn)
    else if n == "unspecified" || n == "extras_policy_unspecified" then Some(Unspecified)
    else None
  }

  function DirectionOf(text: string): Option<Direction> {
    DirectionNamed(Normalize(text))
  }

  function DirectionNamed(n: string): Option<Direction> {
    if n == "outgoing" || n == "edge_direction_def_outgoing" || n == "edge_direction_outgoing" then Some(Outgoing)
    else if n == "bidirectional" || n == "edge_direction_def_bidirectional" || n == "edge_direction_bidirectional" then Some(Bidirectional)
    else None
  }

  function OwnershipOf(text: string): Option<Ownership> {
    OwnershipNamed(Normalize(text))
  }

  function OwnershipNamed(n: string): Option<Ownership> {
    if n == "source_site" || n == "sourcesite" || n == "ownership_mode_source_site" then Some(SourceSite)
    else if n == "independent" || n == "ownership_mode_independent" then Some(Independent)
    else None
  }

  function BoolOf(text: string): Option<bool> {
    BoolNamed(Normalize(text))
  }

  function BoolNamed(n: string): Option<bool> {
    if n == "true" then Some(true) else if n == "false" then Some(false) else None
  }

  function TargetOf(text: string): Target {
    var t := Trim(text);
    if t == "*" || SameIgnoringCase(t, "polymorphic") then Polymorphic else SpecificType(t)
  }

  // ---- literals ----

  /** Which texts are floating-point numbers, and of what bits. */
  type FloatParser = string -> Option<int>

  function Literal(t: Token, float: FloatParser): Value {
    if t.quoted then StringValue(t.text)
    else
      var n := Normalize(t.text);
      if BoolNamed(n).Some? then BoolValue(BoolNamed(n).value)
      else if n == "null" then NullValue
      else if ParseI64(t.text).Some? then IntValue(ParseI64(t.text).value)
      else if float(t.text).Some? then FloatValue(float(t.text).value)
      else StringValue(t.text)
  }

  // ---- the grammar, on the tokens still to be read ----

  datatype Parsed<+V> = Parsed(value: V, rest: seq<Token>)

  predicate Keyword(ts: seq<Token>, word: string) {
    ts != [] && !ts[0].quoted && SameIgnoringCase(ts[0].text, word)
  }

  predicate Symbol(ts: seq<Token>, text: string) {
    ts != [] && !ts[0].quoted && ts[0].text == text
  }

  function Identifier(ts: seq<Token>): Option<string> {
    if ts == [] || (!ts[0].quoted && |ts[0].text| == 1 && IsSymbol(ts[0].text[0])) then None else Some(ts[0].text)
  }

  /** REQUIRED, NOT NULL, INDEX and DEFAULT up to the end of a property. */
  function Modifiers(ts: seq<Token>, def: PropertyDef, float: FloatParser): (r: Option<Parsed<PropertyDef>>)
    ensures r.Some? ==> |r.value.rest| <= |ts|
    decreases |ts|
  {
    if ts == [] || Symbol(ts, ",") || Symbol(ts, ")") then Some(Parsed(def, ts))
    else if Keyword(ts, "required") then Modifiers(ts[1..], def.(required := true), float)
    else if Keyword(ts, "not") && Keyword(ts[1..], "null") then Modifiers(ts[2..], def.(required := true), float)
    else if Keyword(ts, "index") then
      if |ts| < 2 || IndexOf(ts[1].text).None? then None
      else Modifiers(ts[2..], def.(index := IndexOf(ts[1].text)), float)
    else if Keyword(ts, "default") then
      if |ts| < 2 then None else Modifiers(ts[2..], def.(fallback := Some(Literal(ts[1], float))), float)
    else None
  }

  function Property(ts: seq<Token>, float: FloatParser): (r: Option<Parsed<(string, PropertyDef)>>)
    ensures r.Some? ==> |r.value.rest| < |ts|
  {
    var name := Identifier(ts);
    if name.None? || |ts| < 2 || TypeOf(ts[1].text).None? then None
    else
      var r := Modifiers(ts[2..], PropertyDef(TypeOf(ts[1].text).value, false, None, None), float);
      if r.None? then None else Some(Parsed((name.value, r.value.value), r.value.rest))
  }

  /** Properties separated by commas, up to but not including the closing parenthesis. */
  function Properties(ts: seq<Token>, seen: PropertyMap, float: FloatParser): (r: Option<Parsed<PropertyMap>>)
    ensures r.Some? ==> |r.value.rest| <= |ts| && Symbol(r.value.rest, ")")
    decreases |ts|
  {
    if Symbol(ts, ")") then Some(Parsed(seen, ts))
    else
      var p := Property(ts, float);
      if p.None? then None
      else
        var now := seen[p.value.value.0 := p.value.value.1];
        if Symbol(p.value.rest, ",") then Properties(p.value.rest[1..], now, float)
        else if Symbol(p.value.rest, ")") then Some(Parsed(now, p.value.rest))
        else None
  }

  /** A parenthesised property list. */
  function Block(ts: seq<Token>, float: FloatParser): (r: Option<Parsed<PropertyMap>>)
    ensures r.Some? ==> |r.value.rest| < |ts|
  {
    if !Symbol(ts, "(") then None
    else
      var r := Properties(ts[1..], map[], float);
      if r.None? then None else Some(Parsed(r.value.value, r.value.rest[1..]))
  }

  function Options(ts: seq<Token>, meta: Meta): (r: Option<Parsed<Meta>>)
    ensures r.Some? ==> |r.value.rest| <= |ts| && Symbol(r.value.rest, ")")
    decreases |ts|
  {
    if Symbol(ts, ")") then Some(Parsed(meta, ts))
    else
      var o := OneOption(ts, meta);
      if o.None? then None
      else if Symbol(ts[3..], ",") then Options(ts[4..], o.value)
      else if Symbol(ts[3..], ")") then Some(Parsed(o.value, ts[3..]))
      else None
  }

  /** `key = value` in three tokens. */
  function OneOption(ts: seq<Token>, meta: Meta): (r: Option<Meta>)
    ensures r.Some? ==> |ts| >= 3
  {
    if Identifier(ts).None? || |ts| < 3 || !Symbol(ts[1..], "=") then None
    else
      var key := Normalize(ts[0].text);
      if key == "allow_undeclared_edges" && BoolOf(ts[2].text).Some? then Some(meta.(allowUndeclaredEdges := BoolOf(ts[2].text).value))
      else if key == "extras_policy" && ExtrasOf(ts[2].text).Some? then Some(meta.(extras := ExtrasOf(ts[2].text).value))
      else None
  }

  function WithClause(ts: seq<Token>): (r: Option<Parsed<Meta>>)
    ensures r.Some? ==> |r.value.rest| < |ts|
  {
    if !Symbol(ts, "(") then None
    else
      var r := Options(ts[1..], Meta(false, Unspecified));
      if r.None? then None else Some(Parsed(r.value.value, r.value.rest[1..]))
  }

  /** One property block, direction, ownership or sort key of an edge. */
  function EdgePart(ts: seq<Token>, edge: EdgeDef, float: FloatParser): (r: Option<Parsed<EdgeDef>>)
    ensures r.Some? ==> |r.value.rest| < |ts|
  {
    if Symbol(ts, "(") then
      var b := Block(ts, float);
      if b.None? then None else Some(Parsed(edge.(properties := b.value.value), b.value.rest))
    else if Keyword(ts, "direction") then
      if |ts| < 2 || DirectionOf(ts[1].text).None? then None
      else Some(Parsed(edge.(direction := DirectionOf(ts[1].text).value), ts[2..]))
    else if Keyword(ts, "ownership") then
      if |ts| < 2 || OwnershipOf(ts[1].text).None? then None
      else Some(Parsed(edge.(ownership := OwnershipOf(ts[1].text).value), ts[2..]))
    else if Keyword(ts, "sort_key") then
      if Identifier(ts[1..]).None? then None
      else Some(Parsed(edge.(sortKey := Identifier(ts[1..]).value), ts[2..]))
    else if Keyword(ts, "sort") && Keyword(ts[1..], "key") then
      if Identifier(ts[2..]).None? then None
      else Some(Parsed(edge.(sortKey := Identifier(ts[2..]).value), ts[3..]))
    else None
  }

  predicate EdgeEnds(ts: seq<Token>) {
    ts == [] || Symbol(ts, ";") || Keyword(ts, "edge") || Keyword(ts, "with")
  }

  /** What follows an edge's target, up to the next clause. */
  function EdgeParts(ts: seq<Token>, edge: EdgeDef, float: FloatParser): (r: Option<Parsed<EdgeDef>>)
    ensures r.Some? ==> |r.value.rest| <= |ts|
    decreases |ts|
  {
    if EdgeEnds(ts) then Some(Parsed(edge, ts))
    else
      var p := EdgePart(ts, edge, float);
      if p.None? then None else EdgeParts(p.value.rest, p.value.value, float)
  }

  function EdgeClause(ts: seq<Token>, float: FloatParser): (r: Option<Parsed<(string, EdgeDef)>>)
    ensures r.Some? ==> |r.value.rest| < |ts|
  {
    var name := Identifier(ts);
    if name.None? || !(Keyword(ts[1..], "to") || Keyword(ts[1..], "target")) || |ts| < 3 then None
    else
      var edge := EdgeDef(TargetOf(ts[2].text), Outgoing, map[], "", SourceSite);
      var r := EdgeParts(ts[3..], edge, float);
      if r.None? then None else Some(Parsed((name.value, r.value.value), r.value.rest))
  }

  function DropSemicolons(ts: seq<Token>): (r: seq<Token>)
    ensures |r| <= |ts| && !Symbol(r, ";")
  {
    if Symbol(ts, ";") then DropSemicolons(ts[1..]) else ts
  }

  /** WITH and EDGE clauses until neither follows. */
  function Clauses(ts: seq<Token>, schema: Schema, float: FloatParser): (r: Option<Parsed<Schema>>)
    ensures r.Some? ==> |r.value.rest| <= |ts|
    decreases |ts|
  {
    var us := DropSemicolons(ts);
    if Keyword(us, "with") then
      var w := WithClause(us[1..]);
      if w.None? then None else Clauses(w.value.rest, schema.(meta := Some(w.value.value)), float)
    else if Keyword(us, "edge") then
      var e := EdgeClause(us[1..], float);
      if e.None? then None
      else Clauses(e.value.rest, schema.(edges := schema.edges[e.value.value.0 := e.value.value.1]), float)
    else Some(Parsed(schema, us))
  }

  function Definition(ts: seq<Token>, float: FloatParser): Option<Parsed<Schema>> {
    if !Keyword(ts, "create") || !(Keyword(ts[1..], "type") || Keyword(ts[1..], "schema")) || Identifier(ts[2..]).None? then None
    else
      var b := Block(ts[3..], float);
      if b.None? then None
      else Clauses(b.value.rest, Schema(ts[2].text, b.value.value, map[], None), float)
  }

  /** A whole definition, with nothing behind it. */
  function ParseTokens(ts: seq<Token>, float: FloatParser): Option<Schema> {
    var r := Definition(ts, float);
    if r.None? || DropSemicolons(r.value.rest) != [] then None else Some(r.value.value)
  }

  function ParseSql(input: string, float: FloatParser): Option<Schema> {
    var ts := Tokens(input);
    if ts.None? then None else ParseTokens(ts.value, float)
  }
}
