/**
 * Rewriting equality terms on template fields into one synthetic term
 * (crates/pelago-query/src/executor.rs, crates/pelago-storage/src/term_index.rs).
 */
module TermRewrite {
  import opened Common
  import opened Text
  import opened Cdc

  datatype Term = Term(field: string, value: PropertyValue)

  /** A synthetic field holding the `|`-join of other fields. */
  datatype Template = Template(name: string, fields: seq<string>)

  const SHORT: Template := Template("__tpl_show_scheme_shot_sequence", ["show", "scheme", "shot", "sequence"])

  const LONG: Template :=
    Template("__tpl_show_scheme_shot_sequence_task_label", ["show", "scheme", "shot", "sequence", "task", "label"])

  // ---- the query side ----

  /** The string value each field is compared with, unless two terms conflict. */
  function StringValues(group: seq<Term>): Option<map<string, string>> {
    if group == [] then Some(map[])
    else
      var m, t := StringValues(group[..|group| - 1]), group[|group| - 1];
      if m.None? || !t.value.StringProperty? then m
      else if t.field !in m.value then Some(m.value[t.field := t.value.s])
      else if m.value[t.field] == t.value.s then m
      else None
  }

  predicate HasAll(m: map<string, string>, fields: seq<string>) {
    forall i :: 0 <= i < |fields| ==> fields[i] in m
  }

  function Values(m: map<string, string>, fields: seq<string>): (r: seq<string>)
    requires HasAll(m, fields)
    ensures |r| == |fields| && forall i :: 0 <= i < |fields| ==> r[i] == m[fields[i]]
  {
    seq(|fields|, i requires 0 <= i < |fields| => m[fields[i]])
  }

  /** The longest template all of whose fields are compared with strings. */
  function Used(group: seq<Term>): Option<Template> {
    var m := StringValues(group);
    if m.None? then None
    else if HasAll(m.value, LONG.fields) then Some(LONG)
    else if HasAll(m.value, SHORT.fields) then Some(SHORT)
    else None
  }

  function Unconsumed(fields: seq<string>): Term -> bool {
    (t: Term) => t.field !in fields
  }

  function Synthetic(t: Template, m: map<string, string>): Term
    requires HasAll(m, t.fields)
  {
    Term(t.name, StringProperty(JoinBar(Values(m, t.fields))))
  }

  function Rewrite(group: seq<Term>): seq<Term> {
    var t := Used(group);
    if t.None? then group
    else [Synthetic(t.value, StringValues(group).value)] + Filter(group, Unconsumed(t.value.fields))
  }

  method RewriteTemplateTermGroup(group: seq<Term>) returns (out: seq<Term>)
    ensures out == Rewrite(group)
  {
    var values: map<string, string> := map[];
    var i := 0;
    while i < |group|
      invariant 0 <= i <= |group|
      invariant StringValues(group[..i]) == Some(values)
    {
      var t := group[i];
      assert group[..i + 1][..i] == group[..i];
      if t.value.StringProperty? {
        if t.field in values {
          if values[t.field] != t.value.s {
            ConflictStays(group, i + 1);
            return group;
          }
        } else {
          values := values[t.field := t.value.s];
        }
      }
      i := i + 1;
    }
    assert group[..i] == group;
    var template := None;
    if HasAll(values, SHORT.fields) {
      template := Some(if HasAll(values, LONG.fields) then LONG else SHORT);
    }
    LongerHasShort(values);
    if template.None? {
      return group;
    }
    out := [Synthetic(template.value, values)] + Filter(group, Unconsumed(template.value.fields));
  }

  lemma LongerHasShort(m: map<string, string>)
    ensures HasAll(m, LONG.fields) ==> HasAll(m, SHORT.fields)
  {
    assert forall i :: 0 <= i < 4 ==> SHORT.fields[i] == LONG.fields[i];
  }

  lemma {:induction false} ConflictStays(group: seq<Term>, n: nat)
    requires n <= |group| && StringValues(group[..n]).None?
    ensures StringValues(group).None?
    decreases |group| - n
  {
    if n == |group| {
      assert group[..n] == group;
    } else {
      assert group[..n + 1][..n] == group[..n];
      ConflictStays(group, n + 1);
    }
  }

  // ---- the index side ----

  /** The template fields of a node, if all are non-empty strings. */
  predicate Indexed(props: Properties, fields: seq<string>) {
    forall i :: 0 <= i < |fields| ==> fields[i] in props && props[fields[i]].StringProperty? && props[fields[i]].s != ""
  }

  function Strings(props: Properties, fields: seq<string>): (r: seq<string>)
    requires Indexed(props, fields)
    ensures |r| == |fields| && forall i :: 0 <= i < |fields| ==> r[i] == props[fields[i]].s
  {
    seq(|fields|, i requires 0 <= i < |fields| => props[fields[i]].s)
  }

  function TemplateOf(props: Properties, t: Template): Properties {
    if Indexed(props, t.fields) then map[t.name := StringProperty(JoinBar(Strings(props, t.fields)))] else map[]
  }

  /** What a node is posted under: its own properties and its templates. */
  function Posted(props: Properties): Properties {
    props + TemplateOf(props, SHORT) + TemplateOf(props, LONG)
  }

  predicate TermHolds(props: Properties, t: Term) {
    t.field in Posted(props) && Posted(props)[t.field] == t.value
  }

  ghost predicate GroupHolds(props: Properties, group: seq<Term>) {
    forall t :: t in group ==> TermHolds(props, t)
  }

  // ---- the rewriting preserves meaning ----

  /** No property uses a synthetic name, and template fields hold no `|`. */
  ghost predicate PlainNode(props: Properties) {
    && SHORT.name !in props && LONG.name !in props
    && forall f :: f in LONG.fields && f in props && props[f].StringProperty? ==> BarFree(props[f].s)
  }

  /** Terms on the rewritten fields compare with strings free of `|`. */
  ghost predicate PlainGroup(group: seq<Term>, fields: seq<string>) {
    forall t :: t in group && t.field in fields ==> t.value.StringProperty? && BarFree(t.value.s)
  }

  /** Every string term agrees with the collected values, and each value comes from a term. */
  lemma {:induction false} ValuesMean(group: seq<Term>)
    requires StringValues(group).Some?
    ensures var m := StringValues(group).value;
            && (forall t :: t in group && t.value.StringProperty? ==> t.field in m && m[t.field] == t.value.s)
            && (forall f :: f in m ==> Term(f, StringProperty(m[f])) in group)
    decreases |group|
  {
    if group != [] {
      var front, last := group[..|group| - 1], group[|group| - 1];
      ValuesMean(front);
      assert group == front + [last];
    }
  }

  /** Two terms compare one field with different strings. */
  ghost predicate Conflicting(group: seq<Term>) {
    exists a, b :: a in group && b in group && Clash(a, b)
  }

  predicate Clash(a: Term, b: Term) {
    a.field == b.field && a.value.StringProperty? && b.value.StringProperty? && a.value != b.value
  }

  lemma {:induction false} ConflictIff(group: seq<Term>)
    ensures StringValues(group).None? <==> Conflicting(group)
    decreases |group|
  {
    if group != [] {
      var front, last := group[..|group| - 1], group[|group| - 1];
      assert group == front + [last];
      ConflictIff(front);
      if StringValues(front).Some? {
        ValuesMean(front);
        var m := StringValues(front).value;
        if last.value.StringProperty? && last.field in m && m[last.field] != last.value.s {
          assert Clash(Term(last.field, StringProperty(m[last.field])), last);
        }
      } else {
        var a, b :| a in front && b in front && Clash(a, b);
        assert a in group && b in group;
      }
    }
  }

  /** Some term compares the field with a string. */
  ghost predicate Compared(group: seq<Term>, field: string) {
    exists t :: t in group && t.field == field && t.value.StringProperty?
  }

  ghost predicate FirstFour(group: seq<Term>) {
    Compared(group, "show") && Compared(group, "scheme") && Compared(group, "shot") && Compared(group, "sequence")
  }

  lemma ComparedIff(group: seq<Term>, field: string)
    requires StringValues(group).Some?
    ensures field in StringValues(group).value <==> Compared(group, field)
  {
    ValuesMean(group);
    var m := StringValues(group).value;
    if field in m {
      assert Term(field, StringProperty(m[field])) in group;
    }
  }

  lemma HasAllFour(m: map<string, string>)
    ensures HasAll(m, SHORT.fields) <==> "show" in m && "scheme" in m && "shot" in m && "sequence" in m
  {
    assert SHORT.fields[0] == "show" && SHORT.fields[1] == "scheme" && SHORT.fields[2] == "shot";
    assert SHORT.fields[3] == "sequence";
  }

  lemma HasAllSix(m: map<string, string>)
    ensures HasAll(m, LONG.fields) <==> HasAll(m, SHORT.fields) && "task" in m && "label" in m
  {
    assert forall i :: 0 <= i < 4 ==> SHORT.fields[i] == LONG.fields[i];
    assert LONG.fields[4] == "task" && LONG.fields[5] == "label";
  }

  /**
   * Which template is used: none if two terms clash or one of the first four fields is not compared
   * with a string, the long one if task and label are compared too, otherwise the short one.
   */
  lemma UsedIff(group: seq<Term>)
    ensures Used(group) == if Conflicting(group) || !FirstFour(group) then None
                           else if Compared(group, "task") && Compared(group, "label") then Some(LONG)
                           else Some(SHORT)
  {
    ConflictIff(group);
    if StringValues(group).Some? {
      var m := StringValues(group).value;
      HasAllFour(m);
      HasAllSix(m);
      ComparedIff(group, "show");
      ComparedIff(group, "scheme");
      ComparedIff(group, "shot");
      ComparedIff(group, "sequence");
      ComparedIff(group, "task");
      ComparedIff(group, "label");
    }
  }

  lemma PostedOwn(props: Properties, f: string)
    requires f != SHORT.name && f != LONG.name
    ensures f in Posted(props) <==> f in props
    ensures f in props ==> Posted(props)[f] == props[f]
  {
  }

  lemma NamesDiffer(f: string)
    requires f in LONG.fields
    ensures f != SHORT.name && f != LONG.name && SHORT.name != LONG.name
  {
    assert |SHORT.name| == 31 && |LONG.name| == 42;
  }

  /** A node is posted under a template exactly with the join of its own fields. */
  lemma PostedTemplate(props: Properties, t: Template, s: string)
    requires PlainNode(props) && (t == SHORT || t == LONG)
    ensures TermHolds(props, Term(t.name, StringProperty(s))) <==> Indexed(props, t.fields) && JoinBar(Strings(props, t.fields)) == s
  {
    assert "show" in LONG.fields by { assert LONG.fields[0] == "show"; }
    NamesDiffer("show");
  }

  /** The synthetic term holds exactly when all its fields have the compared, non-empty values. */
  lemma SyntheticMeans(props: Properties, t: Template, m: map<string, string>)
    requires PlainNode(props) && (t == SHORT || t == LONG) && HasAll(m, t.fields)
    requires forall i :: 0 <= i < |t.fields| ==> BarFree(m[t.fields[i]])
    ensures TermHolds(props, Synthetic(t, m)) <==> Indexed(props, t.fields) && Strings(props, t.fields) == Values(m, t.fields)
  {
    PostedTemplate(props, t, JoinBar(Values(m, t.fields)));
    if Indexed(props, t.fields) && JoinBar(Strings(props, t.fields)) == JoinBar(Values(m, t.fields)) {
      forall i | 0 <= i < |t.fields|
        ensures BarFree(props[t.fields[i]].s)
      {
        TemplateField(t, i);
      }
      JoinInjective(Strings(props, t.fields), Values(m, t.fields));
    }
  }

  lemma TemplateField(t: Template, i: nat)
    requires (t == SHORT || t == LONG) && i < |t.fields|
    ensures t.fields[i] in LONG.fields
  {
    assert LONG.fields[i] == t.fields[i];
  }

  ghost predicate NonEmptyValues(t: Template, m: map<string, string>)
    requires HasAll(m, t.fields)
  {
    forall i :: 0 <= i < |t.fields| ==> m[t.fields[i]] != ""
  }

  /** The terms on a template's fields hold exactly when the node has the compared values. */
  lemma FieldTermsMean(props: Properties, group: seq<Term>, t: Template)
    requires Used(group) == Some(t) && PlainGroup(group, t.fields)
    ensures var m := StringValues(group).value;
            (forall x :: x in group && x.field in t.fields ==> TermHolds(props, x)) <==>
            (forall i :: 0 <= i < |t.fields| ==> t.fields[i] in props && props[t.fields[i]] == StringProperty(m[t.fields[i]]))
  {
    var m := StringValues(group).value;
    ValuesMean(group);
    forall i | 0 <= i < |t.fields|
      ensures TermHolds(props, Term(t.fields[i], StringProperty(m[t.fields[i]]))) <==>
              t.fields[i] in props && props[t.fields[i]] == StringProperty(m[t.fields[i]])
    {
      TemplateField(t, i);
      NamesDiffer(t.fields[i]);
      PostedOwn(props, t.fields[i]);
    }
    forall x | x in group && x.field in t.fields
      ensures x == Term(x.field, StringProperty(m[x.field]))
    {
    }
  }

  /** Rewriting never admits a node the group does not. */
  lemma RewriteSound(props: Properties, group: seq<Term>, t: Template)
    requires PlainNode(props) && Used(group) == Some(t) && PlainGroup(group, t.fields)
    requires GroupHolds(props, Rewrite(group))
    ensures GroupHolds(props, group) && NonEmptyValues(t, StringValues(group).value)
  {
    var m := StringValues(group).value;
    GroupBars(group, t);
    assert Synthetic(t, m) in Rewrite(group);
    SyntheticMeans(props, t, m);
    forall i | 0 <= i < |t.fields|
      ensures t.fields[i] in props && props[t.fields[i]] == StringProperty(m[t.fields[i]]) && m[t.fields[i]] != ""
    {
      assert Strings(props, t.fields)[i] == Values(m, t.fields)[i];
    }
    FieldTermsMean(props, group, t);
    forall x | x in group && x.field !in t.fields
      ensures TermHolds(props, x)
    {
      FilterMember(group, Unconsumed(t.fields), x);
      assert x in Rewrite(group);
    }
  }

  /** Nor, with non-empty values, does it lose one. */
  lemma RewriteComplete(props: Properties, group: seq<Term>, t: Template)
    requires PlainNode(props) && Used(group) == Some(t) && PlainGroup(group, t.fields)
    requires GroupHolds(props, group) && NonEmptyValues(t, StringValues(group).value)
    ensures GroupHolds(props, Rewrite(group))
  {
    var m := StringValues(group).value;
    GroupBars(group, t);
    FieldTermsMean(props, group, t);
    assert Indexed(props, t.fields);
    assert Strings(props, t.fields) == Values(m, t.fields);
    SyntheticMeans(props, t, m);
    forall x | x in Rewrite(group)
      ensures TermHolds(props, x)
    {
      FilterMember(group, Unconsumed(t.fields), x);
    }
  }

  lemma GroupBars(group: seq<Term>, t: Template)
    requires Used(group) == Some(t) && PlainGroup(group, t.fields)
    ensures var m := StringValues(group).value;
            forall i :: 0 <= i < |t.fields| ==> BarFree(m[t.fields[i]])
  {
    ValuesMean(group);
    var m := StringValues(group).value;
    forall i | 0 <= i < |t.fields|
      ensures BarFree(m[t.fields[i]])
    {
      assert Term(t.fields[i], StringProperty(m[t.fields[i]])) in group;
    }
  }

  /**
   * The rewritten group holds of a node exactly when the original does, unless a rewritten value
   * is the empty string, which the index never posts: then it holds of no node.
   */
  lemma RewriteMeans(props: Properties, group: seq<Term>)
    requires PlainNode(props) && (Used(group).Some? ==> PlainGroup(group, Used(group).value.fields))
    ensures GroupHolds(props, Rewrite(group)) <==>
            GroupHolds(props, group) && (Used(group).Some? ==> NonEmptyValues(Used(group).value, StringValues(group).value))
  {
    if Used(group).Some? {
      var t := Used(group).value;
      if GroupHolds(props, Rewrite(group)) {
        RewriteSound(props, group, t);
      }
      if GroupHolds(props, group) && NonEmptyValues(t, StringValues(group).value) {
        RewriteComplete(props, group, t);
      }
    }
  }

  /** Everything but the terms that compare one of the fields with something else than a string. */
  function StringsOn(fields: seq<string>): Term -> bool {
    (t: Term) => t.field !in fields || t.value.StringProperty?
  }

  /** The last term changes the values by what the ones before it gave only. */
  lemma LastValue(a: seq<Term>, b: seq<Term>, last: Term)
    requires StringValues(a) == StringValues(b)
    ensures StringValues(a + [last]) == StringValues(b + [last])
    ensures !last.value.StringProperty? ==> StringValues(a + [last]) == StringValues(b)
  {
    assert (a + [last])[..|a|] == a && (b + [last])[..|b|] == b;
  }

  lemma {:induction false} StringValuesIgnoreOthers(group: seq<Term>, fields: seq<string>)
    ensures StringValues(Filter(group, StringsOn(fields))) == StringValues(group)
    decreases |group|
  {
    if group != [] {
      var front, last := group[..|group| - 1], group[|group| - 1];
      assert group == front + [last];
      StringValuesIgnoreOthers(front, fields);
      FilterAppend(front, [last], StringsOn(fields));
      var kept := Filter(front, StringsOn(fields));
      LastValue(kept, front, last);
      LastValue(front, front, last);
      assert kept + [] == kept;
    }
  }

  /** Terms comparing a rewritten field with something else than a string are dropped, wherever they stand. */
  lemma MixedTermsAreLost(group: seq<Term>, t: Template)
    requires Used(group) == Some(t)
    ensures Rewrite(group) == Rewrite(Filter(group, StringsOn(t.fields)))
  {
    StringValuesIgnoreOthers(group, t.fields);
    FilterTwice(group, StringsOn(t.fields), Unconsumed(t.fields), Unconsumed(t.fields));
  }

  /** No node meets such a term together with the others. */
  lemma MixedTermHoldsNowhere(props: Properties, group: seq<Term>, t: Template, x: Term)
    requires Used(group) == Some(t) && x in group && x.field in t.fields && !x.value.StringProperty?
    ensures !GroupHolds(props, group)
  {
    ValuesMean(group);
    var y := Term(x.field, StringProperty(StringValues(group).value[x.field]));
    assert y in group && x in group;
  }

  /** Terms on the rewritten fields that compare with strings compare with strings free of `|`. */
  ghost predicate PlainStrings(group: seq<Term>, fields: seq<string>) {
    forall t :: t in group && t.field in fields && t.value.StringProperty? ==> BarFree(t.value.s)
  }

  /**
   * Mixed groups included: the rewritten group holds exactly when the string terms and the terms on
   * other fields do and no rewritten value is empty; the original holds exactly when those terms
   * do and no rewritten field is compared with anything else.
   */
  lemma MixedRewriteMeans(props: Properties, group: seq<Term>, t: Template)
    requires PlainNode(props) && Used(group) == Some(t) && PlainStrings(group, t.fields)
    ensures var kept := Filter(group, StringsOn(t.fields));
            var holds := GroupHolds(props, kept) && NonEmptyValues(t, StringValues(group).value);
            && (GroupHolds(props, Rewrite(group)) <==> holds)
            && (GroupHolds(props, group) <==> GroupHolds(props, kept) && PlainGroup(group, t.fields))
  {
    var kept := Filter(group, StringsOn(t.fields));
    StringValuesIgnoreOthers(group, t.fields);
    MixedTermsAreLost(group, t);
    forall x
      ensures x in kept <==> x in group && StringsOn(t.fields)(x)
    {
      FilterMember(group, StringsOn(t.fields), x);
    }
    RewriteMeans(props, kept);
    forall x | x in group && x.field in t.fields && !x.value.StringProperty?
      ensures !GroupHolds(props, group)
    {
      MixedTermHoldsNowhere(props, group, t, x);
    }
  }
}
