/** Which schemas keep every assertion, wherever it stands, exactly as it was. */
module SchemaAssertions {
  import opened Wrappers
  import opened SchemaTitles
  import opened SchemaSettled
  import opened SchemaAcceptance

  /** Every assertion of the first schema, and of every schema inside it, stands in the second at the same place. */
  predicate SameAssertions(v: Json, w: Json)
    decreases v, 1
  {
    v.Obj? && !IsReference(v) ==>
      && w.Obj?
      && (forall k | k in v.fields && RoleOf(k).Assertion? :: k in w.fields && w.fields[k] == v.fields[k])
      && (forall k | k in v.fields && IsApplicator(k) :: k in w.fields && SameBelow(k, v.fields[k], w.fields[k]))
  }

  predicate SameBelow(k: string, c: Json, d: Json)
    decreases c, 2
  {
    if RoleOf(k).Table? then c.Obj? ==> SameTable(c, d)
    else if c.Arr? then d.Arr? && SameList(c.items, d.items)
    else RoleOf(k).Subschema? ==> SameAssertions(c, d)
  }

  predicate SameTable(c: Json, d: Json)
    requires c.Obj?
    decreases c, 1
  {
    d.Obj? && forall p | p in c.fields :: p in d.fields && SameAssertions(c.fields[p], d.fields[p])
  }

  predicate SameList(c: seq<Json>, d: seq<Json>)
    decreases c, 0
  {
    |c| == |d| && forall i | 0 <= i < |c| :: SameAssertions(c[i], d[i])
  }

  // ---- the walk ---------------------------------------------------------------

  lemma AssertionKeptIff(v: Json, k: string, base: string, title: Option<string>, owner: Option<string>)
    requires v.Obj? && k in v.fields && RoleOf(k).Assertion?
    ensures AnnotateField(v, k, base, title, owner) == Some(v.fields[k]) <==> SettledField(v, k, base, owner)
  {
    hide Annotate, AnnotateVariants, AnnotateDefinitions, Settled, DISCRIMINATOR_KEYS, WellNamed, StringLiteral;
    OrdinaryKeywords(k);
    hide RoleOf;
    var child := v.fields[k];
    UnchangedIffSettled(child, base, None);
    if owner.Some? && k in DISCRIMINATOR_KEYS && Untitled(child) {
      Opened(child, base, Some(DiscriminatorTitle(owner.value, k)), None);
    }
  }

  /** The walk keeps all assertions of a schema exactly when the schema is plain. */
  lemma {:induction false} SchemaKeptIff(v: Json, base: string, title: Option<string>, owner: Option<string>)
    requires Annotate(v, base, title, owner).Some?
    ensures Plain(v, base, owner) <==> SameAssertions(v, Annotate(v, base, title, owner).value)
    decreases v, 3
  {
    hide AnnotateField, SettledField, PlainChild, RoleOf, SameBelow;
    if v.Obj? && !IsReference(v) {
      var w := Annotate(v, base, title, owner).value;
      Opened(v, base, title, owner);
      hide Annotate;
      forall k | k in v.fields && RoleOf(k).Assertion?
        ensures w.fields[k] == v.fields[k] <==> SettledField(v, k, base, owner)
      {
        AssertionKeptIff(v, k, base, title, owner);
      }
      forall k | k in v.fields && IsApplicator(k)
        ensures SameBelow(k, v.fields[k], w.fields[k]) <==> PlainChild(k, v.fields[k], base)
      {
        ApplicatorKeptIff(v, k, base, title, owner);
      }
    }
  }

  lemma {:induction false} ApplicatorKeptIff(v: Json, k: string, base: string, title: Option<string>, owner: Option<string>)
    requires v.Obj? && k in v.fields && IsApplicator(k) && AnnotateField(v, k, base, title, owner).Some?
    ensures PlainChild(k, v.fields[k], base) <==> SameBelow(k, v.fields[k], AnnotateField(v, k, base, title, owner).value)
    decreases v, 2
  {
    hide Annotate, AnnotateVariants, AnnotateDefinitions, Untitled, ToPascalCase, OwnTitle, DISCRIMINATOR_KEYS, PlainProperty, Plain, SameAssertions, SameTable;
    var child := v.fields[k];
    OrdinaryKeywords(k);
    RolesOfKeywords();
    if k == "oneOf" || k == "anyOf" {
      if child.Arr? {
        VariantsKeptIff(child.items, base, Titles(child.items));
      }
    } else if k == "properties" {
      PropertiesField(v, base, title, owner);
      if child.Obj? {
        TableKeptIff(child, base, OwnTitle(v.fields, title));
      }
    } else {
      BelowKeptIff(k, child, base);
    }
  }

  lemma {:induction false} BelowKeptIff(k: string, c: Json, base: string)
    requires IsApplicator(k) && Annotate(c, base, None, None).Some?
    ensures PlainChild(k, c, base) <==> SameBelow(k, c, Annotate(c, base, None, None).value)
    decreases c, 4
  {
    hide AnnotateField, RoleOf, PlainProperty, Plain, SameAssertions, SameTable;
    KindKept(c, base, None, None);
    if RoleOf(k).Table? {
      if c.Obj? {
        TableKeptIff(c, base, None);
      }
    } else if c.Arr? {
      ItemsAt(c.items, base);
      var out := AnnotateItems(c.items, base).value;
      forall i | 0 <= i < |c.items| ensures Plain(c.items[i], base, None) <==> SameAssertions(c.items[i], out[i]) {
        SchemaKeptIff(c.items[i], base, None, None);
      }
    } else if RoleOf(k).Subschema? {
      SchemaKeptIff(c, base, None, None);
    }
  }

  lemma {:induction false} VariantsKeptIff(variants: seq<Json>, base: string, seen: set<string>)
    requires AnnotateVariants(variants, base, seen).Some?
    ensures (forall i | 0 <= i < |variants| :: Plain(variants[i], base, None))
       <==> SameList(variants, AnnotateVariants(variants, base, seen).value)
    decreases variants, 0
  {
    hide Annotate, NameVariant, Plain, SameAssertions;
    if variants != [] {
      var v, rest := variants[0], variants[1..];
      var out := AnnotateVariants(variants, base, seen).value;
      var taken := seen;
      if v.Obj? {
        var naming := NameVariant(v, base, seen);
        SchemaKeptIff(v, base, if naming.Rename? then Some(naming.title) else None, None);
        taken := if naming.Rename? then seen + {naming.title} else seen;
      } else {
        NoAssertions(v, base);
      }
      VariantsKeptIff(rest, base, taken);
      assert out[1..] == AnnotateVariants(rest, base, taken).value;
      hide AnnotateVariants, SameList;
      SameListCons(variants, out);
      PlainListCons(variants, base);
    }
  }

  lemma SameListCons(c: seq<Json>, d: seq<Json>)
    requires c != [] && |c| == |d|
    ensures SameList(c, d) <==> SameAssertions(c[0], d[0]) && SameList(c[1..], d[1..])
  {
    hide SameAssertions;
    assert forall i | 0 <= i < |c| - 1 :: c[1..][i] == c[i + 1] && d[1..][i] == d[i + 1];
    assert forall i | 0 < i < |c| :: c[i] == c[1..][i - 1] && d[i] == d[1..][i - 1];
  }

  lemma PlainListCons(c: seq<Json>, base: string)
    requires c != []
    ensures (forall i | 0 <= i < |c| :: Plain(c[i], base, None))
       <==> Plain(c[0], base, None) && forall i | 0 <= i < |c[1..]| :: Plain(c[1..][i], base, None)
  {
    hide Plain;
    assert forall i | 0 <= i < |c| - 1 :: c[1..][i] == c[i + 1];
    assert forall i | 0 < i < |c| :: c[i] == c[1..][i - 1];
  }

  lemma NoAssertions(v: Json, base: string)
    requires !v.Obj?
    ensures Plain(v, base, None) && forall w :: SameAssertions(v, w)
  {
  }

  lemma {:induction false} TableKeptIff(p: Json, base: string, owner: Option<string>)
    requires p.Obj? && Annotate(p, base, None, owner).Some?
    ensures (forall k | k in p.fields :: PlainProperty(p, k, base))
       <==> SameTable(p, Annotate(p, base, None, owner).value)
    decreases p, 1
  {
    hide Annotate, AnnotateField, PlainProperty, SameAssertions;
    var q := Annotate(p, base, None, owner).value;
    Opened(p, base, None, owner);
    assert p.fields.Keys + Written(None) == p.fields.Keys;
    forall k | k in p.fields ensures PlainProperty(p, k, base) <==> SameAssertions(p.fields[k], q.fields[k]) {
      PropertyKeptIff(p, k, base, owner);
    }
  }

  lemma {:induction false} PropertyKeptIff(p: Json, k: string, base: string, owner: Option<string>)
    requires p.Obj? && k in p.fields && AnnotateField(p, k, base, None, owner).Some?
    ensures PlainProperty(p, k, base) <==> SameAssertions(p.fields[k], AnnotateField(p, k, base, None, owner).value)
    decreases p, 0
  {
    hide Annotate, AnnotateVariants, AnnotateDefinitions, Plain, PlainSpread, SameAssertions, DISCRIMINATOR_KEYS, Untitled, ToPascalCase, TitleOf;
    var child := p.fields[k];
    if k == "oneOf" || k == "anyOf" {
      if child.Arr? {
        NoAssertions(child, base);
      } else {
        SameAsItself(child);
      }
    } else if k == "definitions" || k == "$defs" {
      if child.Obj? {
        SpreadKeptIff(child);
      } else {
        NoAssertions(child, base);
      }
    } else if k == "properties" && TitleOf(p).Some? {
      SchemaKeptIff(child, base, None, TitleOf(p));
    } else if owner.Some? && k in DISCRIMINATOR_KEYS && Untitled(child) {
      SchemaKeptIff(child, base, Some(DiscriminatorTitle(owner.value, k)), None);
    } else {
      SchemaKeptIff(child, base, None, None);
    }
  }

  lemma {:induction false} SameAsItself(v: Json)
    ensures SameAssertions(v, v)
    decreases v, 1
  {
    hide RoleOf;
    if v.Obj? {
      forall k | k in v.fields && IsApplicator(k) ensures SameBelow(k, v.fields[k], v.fields[k]) {
        SameBelowItself(k, v.fields[k]);
      }
    }
  }

  lemma {:induction false} SameBelowItself(k: string, c: Json)
    ensures SameBelow(k, c, c)
    decreases c, 2
  {
    hide RoleOf, SameAssertions;
    SameAsItself(c);
    if c.Obj? {
      forall p | p in c.fields ensures SameAssertions(c.fields[p], c.fields[p]) { SameAsItself(c.fields[p]); }
    } else if c.Arr? {
      forall i | 0 <= i < |c.items| ensures SameAssertions(c.items[i], c.items[i]) { SameAsItself(c.items[i]); }
    }
  }

  lemma {:induction false} SpreadKeptIff(s: Json)
    requires s.Obj? && AnnotateDefinitions(s).Some?
    ensures (!IsReference(s) ==> PlainSpread(s)) <==> SameAssertions(s, AnnotateDefinitions(s).value)
    decreases s, 2
  {
    hide RoleOf, Settled, PlainChild, SameBelow;
    if !IsReference(s) {
      hide Annotate;
      var w := AnnotateDefinitions(s).value;
      forall k | k in s.fields && RoleOf(k).Assertion?
        ensures w.fields[k] == s.fields[k] <==> Settled(s.fields[k], k, None)
      {
        UnchangedIffSettled(s.fields[k], k, None);
      }
      forall k | k in s.fields && IsApplicator(k)
        ensures SameBelow(k, s.fields[k], w.fields[k]) <==> PlainChild(k, s.fields[k], k)
      {
        BelowKeptIff(k, s.fields[k], k);
      }
    }
  }

  // ---- the whole bundle -------------------------------------------------------

  /** Every definition keeps its assertions. */
  ghost predicate DefinitionsSame(root: Json, w: Json, table: string) {
    forall name | Definition(root, table, name).Some? ::
      Definition(w, table, name).Some? && SameAssertions(Definition(root, table, name).value, Definition(w, table, name).value)
  }

  /**
   * The condition under which the meaning is kept is exactly that the walk alters no
   * assertion, neither in the bundle's own schema nor in any definition.
   */
  lemma AssertionsKeptIffPlain(root: Json, base: string)
    requires Annotate(root, base, None, None).Some?
    ensures var w := Annotate(root, base, None, None).value;
            Plain(root, base, None) && PlainDefinitions(root) <==>
              SameAssertions(root, w) && DefinitionsSame(root, w, "definitions") && DefinitionsSame(root, w, "$defs")
  {
    hide Annotate, Plain, SameAssertions, Definition;
    SchemaKeptIff(root, base, None, None);
    DefinitionsKeptIff(root, base, "definitions");
    DefinitionsKeptIff(root, base, "$defs");
  }

  lemma DefinitionsKeptIff(root: Json, base: string, table: string)
    requires Annotate(root, base, None, None).Some? && (table == "definitions" || table == "$defs")
    ensures (forall name | Definition(root, table, name).Some? :: Plain(Definition(root, table, name).value, name, None))
       <==> DefinitionsSame(root, Annotate(root, base, None, None).value, table)
  {
    hide Annotate, Plain, SameAssertions, Definition;
    var w := Annotate(root, base, None, None).value;
    forall name | Definition(root, table, name).Some?
      ensures Definition(w, table, name).Some?
      ensures Plain(Definition(root, table, name).value, name, None)
         <==> SameAssertions(Definition(root, table, name).value, Definition(w, table, name).value)
    {
      DefinitionKept(root, base, table, name);
      SchemaKeptIff(Definition(root, table, name).value, name, None, None);
    }
  }
}
