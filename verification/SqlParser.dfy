/** The recursive-descent parser, advancing a position through the tokens (crates/pelago-cli/src/schema_input.rs). */
module SqlParser {
  import opened Common
  import opened SqlLexer
  import opened SqlGrammar

  /** A result and the remaining tokens are those of the grammar. */
  ghost predicate Follows<V(!new)>(spec: Option<Parsed<V>>, r: Option<V>, rest: seq<Token>) {
    if spec.None? then r.None? else r == Some(spec.value.value) && rest == spec.value.rest
  }

  class Parser {
    const tokens: seq<Token>
    const float: FloatParser
    var pos: nat

    ghost predicate Valid()
      reads this
    {
      pos <= |tokens|
    }

    /** What is still to be read. */
    function Rest(): seq<Token>
      requires Valid()
      reads this
    {
      tokens[pos..]
    }

    constructor (tokens: seq<Token>, float: FloatParser)
      ensures Valid() && this.tokens == tokens && this.float == float && Rest() == tokens
    {
      this.tokens := tokens;
      this.float := float;
      pos := 0;
    }

    method NextToken() returns (t: Option<Token>)
      requires Valid()
      modifies this`pos
      ensures Valid() && t == (if old(Rest()) == [] then None else Some(old(Rest())[0]))
      ensures Rest() == if old(Rest()) == [] then [] else old(Rest())[1..]
    {
      if pos < |tokens| {
        t := Some(tokens[pos]);
        pos := pos + 1;
      } else {
        t := None;
      }
    }

    method MatchKeyword(word: string) returns (b: bool)
      requires Valid()
      modifies this`pos
      ensures Valid() && b == Keyword(old(Rest()), word)
      ensures Rest() == if b then old(Rest())[1..] else old(Rest())
    {
      b := Keyword(Rest(), word);
      if b {
        pos := pos + 1;
      }
    }

    method MatchSymbol(text: string) returns (b: bool)
      requires Valid()
      modifies this`pos
      ensures Valid() && b == Symbol(old(Rest()), text)
      ensures Rest() == if b then old(Rest())[1..] else old(Rest())
    {
      b := Symbol(Rest(), text);
      if b {
        pos := pos + 1;
      }
    }

    method MatchCompoundKeyword(a: string, b: string) returns (r: bool)
      requires Valid()
      modifies this`pos
      ensures Valid() && r == (Keyword(old(Rest()), a) && Keyword(old(Rest())[1..], b))
      ensures Rest() == if r then old(Rest())[2..] else old(Rest())
    {
      var start := pos;
      ghost var ts := Rest();
      r := MatchKeyword(a);
      if r {
        r := MatchKeyword(b);
        assert r ==> ts[1..][1..] == ts[2..];
      }
      if !r {
        pos := start;
      }
    }

    method ExpectIdentifier() returns (r: Option<string>)
      requires Valid()
      modifies this`pos
      ensures Valid() && r == Identifier(old(Rest()))
      ensures r.Some? ==> Rest() == old(Rest())[1..]
    {
      var t := NextToken();
      if t.None? || (!t.value.quoted && |t.value.text| == 1 && IsSymbol(t.value.text[0])) {
        return None;
      }
      r := Some(t.value.text);
    }

    method ParseModifiers(start: PropertyDef) returns (r: Option<PropertyDef>)
      requires Valid()
      modifies this`pos
      ensures Valid() && Follows(Modifiers(old(Rest()), start, float), r, Rest())
    {
      var def := start;
      while pos < |tokens| && !Symbol(Rest(), ",") && !Symbol(Rest(), ")")
        invariant Valid()
        invariant Modifiers(Rest(), def, float) == Modifiers(old(Rest()), start, float)
        decreases |tokens| - pos
      {
        ghost var ts := Rest();
        var required := MatchKeyword("required");
        if required {
          def := def.(required := true);
          continue;
        }
        required := MatchCompoundKeyword("not", "null");
        if required {
          def := def.(required := true);
          continue;
        }
        var word := MatchKeyword("index");
        if word {
          var t := NextToken();
          if t.None? || IndexOf(t.value.text).None? {
            return None;
          }
          assert ts[1..][1..] == ts[2..];
          def := def.(index := IndexOf(t.value.text));
          continue;
        }
        word := MatchKeyword("default");
        if word {
          var t := NextToken();
          if t.None? {
            return None;
          }
          assert ts[1..][1..] == ts[2..];
          def := def.(fallback := Some(Literal(t.value, float)));
          continue;
        }
        return None;
      }
      r := Some(def);
    }

    method ParseProperty() returns (r: Option<(string, PropertyDef)>)
      requires Valid()
      modifies this`pos
      ensures Valid() && Follows(Property(old(Rest()), float), r, Rest())
    {
      ghost var ts := Rest();
      var name := ExpectIdentifier();
      if name.None? {
        return None;
      }
      var t := NextToken();
      if t.None? || TypeOf(t.value.text).None? {
        return None;
      }
      assert ts[1..][1..] == ts[2..];
      var def := ParseModifiers(PropertyDef(TypeOf(t.value.text).value, false, None, None));
      if def.None? {
        return None;
      }
      r := Some((name.value, def.value));
    }

    method ParsePropertyList() returns (r: Option<PropertyMap>)
      requires Valid()
      modifies this`pos
      ensures Valid() && Follows(Properties(old(Rest()), map[], float), r, Rest())
    {
      var seen: PropertyMap := map[];
      while !Symbol(Rest(), ")")
        invariant Valid()
        invariant Properties(Rest(), seen, float) == Properties(old(Rest()), map[], float)
        decreases |tokens| - pos
      {
        var p := ParseProperty();
        if p.None? {
          return None;
        }
        seen := seen[p.value.0 := p.value.1];
        var comma := MatchSymbol(",");
        if comma {
          continue;
        }
        if Symbol(Rest(), ")") {
          break;
        }
        return None;
      }
      r := Some(seen);
    }

    method ParseBlock() returns (r: Option<PropertyMap>)
      requires Valid()
      modifies this`pos
      ensures Valid() && Follows(Block(old(Rest()), float), r, Rest())
    {
      var open := MatchSymbol("(");
      if !open {
        return None;
      }
      r := ParsePropertyList();
      if r.Some? {
        var close := MatchSymbol(")");
      }
    }

    method ParseOption(meta: Meta) returns (r: Option<Meta>)
      requires Valid()
      modifies this`pos
      ensures Valid() && r == OneOption(old(Rest()), meta)
      ensures r.Some? ==> Rest() == old(Rest())[3..]
    {
      ghost var ts := Rest();
      var key := ExpectIdentifier();
      if key.None? {
        return None;
      }
      var equals := MatchSymbol("=");
      if !equals {
        return None;
      }
      assert ts[1..][1..] == ts[2..];
      var t := NextToken();
      if t.None? {
        return None;
      }
      assert ts[2..][1..] == ts[3..];
      var name := SqlGrammar.Normalize(key.value);
      if name == "allow_undeclared_edges" && BoolOf(t.value.text).Some? {
        return Some(meta.(allowUndeclaredEdges := BoolOf(t.value.text).value));
      } else if name == "extras_policy" && ExtrasOf(t.value.text).Some? {
        return Some(meta.(extras := ExtrasOf(t.value.text).value));
      }
      r := None;
    }

    method ParseWithClause() returns (r: Option<Meta>)
      requires Valid()
      modifies this`pos
      ensures Valid() && Follows(WithClause(old(Rest())), r, Rest())
    {
      var open := MatchSymbol("(");
      if !open {
        return None;
      }
      ghost var start := Rest();
      var meta := Meta(false, Unspecified);
      while !Symbol(Rest(), ")")
        invariant Valid()
        invariant Options(Rest(), meta) == Options(start, Meta(false, Unspecified))
        decreases |tokens| - pos
      {
        ghost var ts := Rest();
        var o := ParseOption(meta);
        if o.None? {
          return None;
        }
        meta := o.value;
        var comma := MatchSymbol(",");
        if comma {
          assert ts[3..][1..] == ts[4..];
          continue;
        }
        if Symbol(Rest(), ")") {
          break;
        }
        return None;
      }
      var close := MatchSymbol(")");
      r := Some(meta);
    }

    method ParseEdgePart(edge: EdgeDef) returns (r: Option<EdgeDef>)
      requires Valid()
      modifies this`pos
      ensures Valid() && Follows(EdgePart(old(Rest()), edge, float), r, Rest())
    {
      ghost var ts := Rest();
      if Symbol(Rest(), "(") {
        var props := ParseBlock();
        return if props.None? then None else Some(edge.(properties := props.value));
      }
      var word := MatchKeyword("direction");
      if word {
        var t := NextToken();
        if t.None? || DirectionOf(t.value.text).None? {
          return None;
        }
        assert ts[1..][1..] == ts[2..];
        return Some(edge.(direction := DirectionOf(t.value.text).value));
      }
      word := MatchKeyword("ownership");
      if word {
        var t := NextToken();
        if t.None? || OwnershipOf(t.value.text).None? {
          return None;
        }
        assert ts[1..][1..] == ts[2..];
        return Some(edge.(ownership := OwnershipOf(t.value.text).value));
      }
      r := ParseSortKey(edge);
    }

    method ParseSortKey(edge: EdgeDef) returns (r: Option<EdgeDef>)
      requires Valid() && !Symbol(Rest(), "(") && !Keyword(Rest(), "direction") && !Keyword(Rest(), "ownership")
      modifies this`pos
      ensures Valid() && Follows(EdgePart(old(Rest()), edge, float), r, Rest())
    {
      ghost var ts := Rest();
      var word := MatchKeyword("sort_key");
      if word {
        assert ts[1..] == Rest();
      } else {
        word := MatchCompoundKeyword("sort", "key");
        if !word {
          return None;
        }
        assert ts[2..] == Rest();
      }
      ghost var us := Rest();
      var key := ExpectIdentifier();
      if key.None? {
        return None;
      }
      assert us == ts[1..] ==> us[1..] == ts[2..];
      assert us == ts[2..] ==> us[1..] == ts[3..];
      r := Some(edge.(sortKey := key.value));
    }

    method ParseEdgeParts(start: EdgeDef) returns (r: Option<EdgeDef>)
      requires Valid()
      modifies this`pos
      ensures Valid() && Follows(EdgeParts(old(Rest()), start, float), r, Rest())
    {
      var edge := start;
      while !EdgeEnds(Rest())
        invariant Valid()
        invariant EdgeParts(Rest(), edge, float) == EdgeParts(old(Rest()), start, float)
        decreases |tokens| - pos
      {
        var part := ParseEdgePart(edge);
        if part.None? {
          return None;
        }
        edge := part.value;
      }
      r := Some(edge);
    }

    method ParseEdgeClause() returns (r: Option<(string, EdgeDef)>)
      requires Valid()
      modifies this`pos
      ensures Valid() && Follows(EdgeClause(old(Rest()), float), r, Rest())
    {
      ghost var ts := Rest();
      var name := ExpectIdentifier();
      if name.None? {
        return None;
      }
      var to := MatchKeyword("to");
      if !to {
        to := MatchKeyword("target");
        if !to {
          return None;
        }
      }
      assert ts[1..][1..] == ts[2..];
      var t := NextToken();
      if t.None? {
        return None;
      }
      assert ts[2..][1..] == ts[3..];
      var edge := ParseEdgeParts(EdgeDef(TargetOf(t.value.text), Outgoing, map[], "", SourceSite));
      if edge.None? {
        return None;
      }
      r := Some((name.value, edge.value));
    }

    method ConsumeSemicolons()
      requires Valid()
      modifies this`pos
      ensures Valid() && Rest() == DropSemicolons(old(Rest()))
    {
      var more := true;
      while more
        invariant Valid() && DropSemicolons(Rest()) == DropSemicolons(old(Rest()))
        invariant !more ==> !Symbol(Rest(), ";")
        decreases more, |tokens| - pos
      {
        more := MatchSymbol(";");
      }
    }

    method ParseClauses(start: Schema) returns (r: Option<Schema>)
      requires Valid()
      modifies this`pos
      ensures Valid() && Follows(Clauses(old(Rest()), start, float), r, Rest())
    {
      var schema := start;
      while true
        invariant Valid()
        invariant Clauses(Rest(), schema, float) == Clauses(old(Rest()), start, float)
        decreases |tokens| - pos
      {
        ConsumeSemicolons();
        if pos >= |tokens| {
          break;
        }
        var word := MatchKeyword("with");
        if word {
          var meta := ParseWithClause();
          if meta.None? {
            return None;
          }
          schema := schema.(meta := meta);
          continue;
        }
        word := MatchKeyword("edge");
        if word {
          var e := ParseEdgeClause();
          if e.None? {
            return None;
          }
          schema := schema.(edges := schema.edges[e.value.0 := e.value.1]);
          continue;
        }
        break;
      }
      r := Some(schema);
    }

    method ParseSchema() returns (r: Option<Schema>)
      requires Valid()
      modifies this`pos
      ensures Valid() && Follows(Definition(old(Rest()), float), r, Rest())
    {
      ghost var ts := Rest();
      var word := MatchKeyword("create");
      if !word {
        return None;
      }
      word := MatchKeyword("type");
      if !word {
        word := MatchKeyword("schema");
        if !word {
          return None;
        }
      }
      assert ts[1..][1..] == ts[2..];
      var name := ExpectIdentifier();
      if name.None? {
        return None;
      }
      assert ts[2..][1..] == ts[3..];
      var props := ParseBlock();
      if props.None? {
        return None;
      }
      r := ParseClauses(Schema(name.value, props.value, map[], None));
    }
  }

  method ParseSchemaSql(input: string, float: FloatParser) returns (r: Option<Schema>)
    ensures r == ParseSql(input, float)
  {
    var tokens := Tokenize(input);
    if tokens.None? {
      return None;
    }
    var parser := new Parser(tokens.value, float);
    r := parser.ParseSchema();
    if r.Some? {
      parser.ConsumeSemicolons();
      if parser.Rest() != [] {
        r := None;
      }
    }
  }
}
