/**
 * For bundles whose schemas are built from assertions, references, `properties`,
 * `additionalProperties` and single `items`, the condition for keeping the meaning is exact.
 */
module SchemaExact {
  import opened Wrappers
  import opened SchemaTitles
  import opened SchemaAcceptance
  import opened SchemaAssertions

  /** No alternatives, negations or conditions: every schema inside decides on some part of the instance alone. */
  predicate Simple(v: Json)
    decreases v, 1
  {
    v.Obj? && !IsReference(v) ==> forall k | k in v.fields && IsApplicator(k) :: SimpleChild(k, v.fields[k])
  }

  predicate SimpleChild(k: string, c: Json)
    decreases c, 2
  {
    if k == "properties" then c.Obj? ==> forall p | p in c.fields :: Simple(c.fields[p])
    else (k == "additionalProperties" || k == "items") && !c.Arr? && Simple(c)
  }

  // ---- the walk keeps the places of schemas -----------------------------------

  /** Same keywords apart from titles, here and below `properties`, `additionalProperties` and `items`. */
  ghost predicate Matching(v: Json, w: Json)
    decreases v, 1
  {
    && v.Obj? == w.Obj?
    && (v.Obj? ==>
          && (IsReference(w) ==> IsReference(v))
          && (forall k | k != "title" :: k in v.fields <==> k in w.fields)
          && ("properties" in v.fields ==> MatchingTable(v.fields["properties"], w.fields["properties"]))
          && ("additionalProperties" in v.fields ==> Matching(v.fields["additionalProperties"], w.fields["additionalProperties"]))
          && ("items" in v.fields ==> Matching(v.fields["items"], w.fields["items"])))
  }

  ghost predicate MatchingTable(c: Json, d: Json)
    decreases c, 2
  {
    c.Obj? == d.Obj? && (c.Obj? ==> c.fields.Keys == d.fields.Keys && forall p | p in c.fields :: Matching(c.fields[p], d.fields[p]))
  }

  lemma {:induction false} MatchesItself(v: Json)
    ensures Matching(v, v)
    decreases v, 1
  {
    if v.Obj? {
      if "properties" in v.fields && v.fields["properties"].Obj? {
        var c := v.fields["properties"];
        forall p | p in c.fields ensures Matching(c.fields[p], c.fields[p]) { MatchesItself(c.fields[p]); }
      }
      if "additionalProperties" in v.fields { MatchesItself(v.fields["additionalProperties"]); }
      if "items" in v.fields { MatchesItself(v.fields["items"]); }
    }
  }

  lemma NotObjects(v: Json, w: Json)
    requires !v.Obj? && !w.Obj?
    ensures Matching(v, w)
  {
  }

  lemma {:induction false} AnnotateMatches(v: Json, base: string, title: Option<string>, owner: Option<string>)
    requires Annotate(v, base, title, owner).Some?
    ensures Matching(v, Annotate(v, base, title, owner).value)
    decreases v, 3
  {
    var w := Annotate(v, base, title, owner).value;
    KindKept(v, base, title, owner);
    if v.Obj? {
      Opened(v, base, title, owner);
      hide Annotate;
      assert IsReference(w) ==> IsReference(v) by { RefKindKept(v, base, title, owner); }
      hide IsReference, AnnotateField;
      if "properties" in v.fields {
        PropertiesField(v, base, title, owner);
        TableMatches(v.fields["properties"], base, OwnTitle(v.fields, title));
      }
      if "additionalProperties" in v.fields {
        SubschemaField(v, "additionalProperties", base, title, owner);
        AnnotateMatches(v.fields["additionalProperties"], base, None, None);
      }
      if "items" in v.fields {
        SubschemaField(v, "items", base, title, owner);
        AnnotateMatches(v.fields["items"], base, None, None);
      }
    }
  }

  lemma SubschemaField(v: Json, k: string, base: string, title: Option<string>, owner: Option<string>)
    requires v.Obj? && k in v.fields && (k == "additionalProperties" || k == "items")
    ensures AnnotateField(v, k, base, title, owner) == Annotate(v.fields[k], base, None, None)
  {
    hide Annotate, AnnotateVariants, AnnotateDefinitions;
  }

  lemma RefKindKept(v: Json, base: string, title: Option<string>, owner: Option<string>)
    requires v.Obj? && Annotate(v, base, title, owner).Some?
    ensures IsReference(Annotate(v, base, title, owner).value) ==> IsReference(v)
  {
    Opened(v, base, title, owner);
    var w := Annotate(v, base, title, owner).value;
    hide Annotate, AnnotateField;
    if "$ref" in v.fields {
      FieldKindKept(v, "$ref", base, title, owner);
    }
  }

  lemma {:induction false} TableMatches(p: Json, base: string, owner: Option<string>)
    requires Annotate(p, base, None, owner).Some?
    ensures MatchingTable(p, Annotate(p, base, None, owner).value)
    decreases p, 1
  {
    hide Annotate, AnnotateField, Matching;
    KindKept(p, base, None, owner);
    if p.Obj? {
      var q := Annotate(p, base, None, owner).value;
      Opened(p, base, None, owner);
      assert p.fields.Keys + Written(None) == p.fields.Keys;
      forall k | k in p.fields ensures Matching(p.fields[k], q.fields[k]) {
        PropertyMatches(p, k, base, owner);
      }
    }
  }

  lemma {:induction false} PropertyMatches(p: Json, k: string, base: string, owner: Option<string>)
    requires p.Obj? && k in p.fields && AnnotateField(p, k, base, None, owner).Some?
    ensures Matching(p.fields[k], AnnotateField(p, k, base, None, owner).value)
    decreases p, 0
  {
    hide Annotate, AnnotateVariants, AnnotateDefinitions, Matching, DISCRIMINATOR_KEYS, Untitled, ToPascalCase, TitleOf;
    var child := p.fields[k];
    if k == "oneOf" || k == "anyOf" {
      if child.Arr? {
        NotObjects(child, Arr(AnnotateVariants(child.items, base, Titles(child.items)).value));
      } else {
        MatchesItself(child);
      }
    } else if k == "definitions" || k == "$defs" {
      if child.Obj? {
        SpreadMatches(child);
      } else {
        MatchesItself(child);
      }
    } else if k == "properties" && TitleOf(p).Some? {
      AnnotateMatches(child, base, None, TitleOf(p));
    } else if owner.Some? && k in DISCRIMINATOR_KEYS && Untitled(child) {
      AnnotateMatches(child, base, Some(DiscriminatorTitle(owner.value, k)), None);
    } else {
      AnnotateMatches(child, base, None, None);
    }
  }

  lemma {:induction false} SpreadMatches(s: Json)
    requires s.Obj? && AnnotateDefinitions(s).Some?
    ensures Matching(s, AnnotateDefinitions(s).value)
    decreases s, 2
  {
    hide Annotate;
    var w := AnnotateDefinitions(s).value;
    assert IsReference(w) ==> IsReference(s) by {
      if "$ref" in s.fields { KindKept(s.fields["$ref"], "$ref", None, None); }
    }
    hide IsReference;
    if "properties" in s.fields { TableMatches(s.fields["properties"], "properties", None); }
    if "additionalProperties" in s.fields { AnnotateMatches(s.fields["additionalProperties"], "additionalProperties", None, None); }
    if "items" in s.fields { AnnotateMatches(s.fields["items"], "items", None, None); }
  }

  // ---- an instance that tells two schemas apart -------------------------------

  /** Rules under which only one assertion rejects, and only the null value. */
  function Mark(k: string, c: Json): Rules {
    Rules((j: string, value: Json, x: Json) => !(j == k && value == c && x == Null), (q: string, p: string) => false)
  }

  predicate Within(v: Json) {
    v.Obj? && !IsReference(v)
    && forall k | k in v.fields && IsApplicator(k) :: k == "properties" || k == "additionalProperties" || k == "items"
  }

  lemma NullRejected(root: Json, v: Json, k: string)
    requires v.Obj? && !IsReference(v) && k in v.fields && RoleOf(k).Assertion?
    ensures !Accepts(root, v, Null, Mark(k, v.fields[k]), 0)
  {
    hide RoleOf, Applies, IsReference;
    assert !Mark(k, v.fields[k]).check(k, v.fields[k], Null);
  }

  lemma NullAccepted(root: Json, w: Json, k: string, c: Json)
    requires Within(w) && (k in w.fields ==> w.fields[k] != c)
    ensures Accepts(root, w, Null, Mark(k, c), 0)
  {
    hide RoleOf, Accepts, IsReference;
    forall j | j in w.fields && IsApplicator(j) ensures Applies(root, w, j, Null, Mark(k, c), 0) {
    }
    AcceptedBy(root, w, Null, Mark(k, c));
  }

  lemma AcceptedBy(root: Json, w: Json, x: Json, rules: Rules)
    requires w.Obj? && !IsReference(w)
    requires forall k | k in w.fields && RoleOf(k).Assertion? :: rules.check(k, w.fields[k], x)
    requires forall k | k in w.fields && IsApplicator(k) :: Applies(root, w, k, x, rules, 0)
    ensures Accepts(root, w, x, rules, 0)
  {
    hide RoleOf, Applies, IsReference;
  }

  lemma RejectedBy(root: Json, v: Json, x: Json, rules: Rules, k: string)
    requires v.Obj? && !IsReference(v) && k in v.fields && IsApplicator(k) && !Applies(root, v, k, x, rules, 0)
    ensures !Accepts(root, v, x, rules, 0)
  {
    hide RoleOf, Applies, IsReference;
  }

  function One(p: string, x: Json): Json {
    Obj(map[p := x])
  }

  /** A member that is declared is judged by its own schema alone. */
  lemma DeclaredMember(root: Json, v: Json, p: string, x: Json, k: string, c: Json)
    requires Within(v) && "properties" in v.fields && v.fields["properties"].Obj? && p in v.fields["properties"].fields
    ensures Accepts(root, v, One(p, x), Mark(k, c), 0)
       <==> Accepts(root, v.fields["properties"].fields[p], x, Mark(k, c), 0)
  {
    RolesOfKeywords();
    hide RoleOf, Accepts, IsReference;
    var rules, y, child := Mark(k, c), One(p, x), v.fields["properties"].fields[p];
    assert y.fields.Keys == {p} && y.fields[p] == x;
    assert Applies(root, v, "properties", y, rules, 0) <==> Accepts(root, child, x, rules, 0);
    if Accepts(root, child, x, rules, 0) {
      forall j | j in v.fields && IsApplicator(j) ensures Applies(root, v, j, y, rules, 0) {
        if j == "additionalProperties" {
          assert Declares(v, p, rules);
        }
      }
      AcceptedBy(root, v, y, rules);
    } else {
      RejectedBy(root, v, y, rules, "properties");
    }
  }

  /** A member under a fresh name is judged by `additionalProperties` alone. */
  lemma ExtraMember(root: Json, v: Json, p: string, x: Json, k: string, c: Json)
    requires Within(v) && "additionalProperties" in v.fields
    requires "properties" in v.fields && v.fields["properties"].Obj? ==> p !in v.fields["properties"].fields
    ensures Accepts(root, v, One(p, x), Mark(k, c), 0)
       <==> Accepts(root, v.fields["additionalProperties"], x, Mark(k, c), 0)
  {
    assert RoleOf("additionalProperties").Subschema?;
    hide RoleOf, Accepts, IsReference;
    var rules, y, child := Mark(k, c), One(p, x), v.fields["additionalProperties"];
    assert y.fields.Keys == {p} && y.fields[p] == x;
    assert !Declares(v, p, rules);
    assert Applies(root, v, "additionalProperties", y, rules, 0) <==> Accepts(root, child, x, rules, 0);
    if Accepts(root, child, x, rules, 0) {
      forall j | j in v.fields && IsApplicator(j) ensures Applies(root, v, j, y, rules, 0) {
      }
      AcceptedBy(root, v, y, rules);
    } else {
      RejectedBy(root, v, y, rules, "additionalProperties");
    }
  }

  /** A list of one item is judged by `items` alone. */
  lemma OnlyItem(root: Json, v: Json, x: Json, k: string, c: Json)
    requires Within(v) && "items" in v.fields && !v.fields["items"].Arr?
    ensures Accepts(root, v, Arr([x]), Mark(k, c), 0) <==> Accepts(root, v.fields["items"], x, Mark(k, c), 0)
  {
    RolesOfKeywords();
    hide RoleOf, Accepts, IsReference;
    var rules, y, child := Mark(k, c), Arr([x]), v.fields["items"];
    assert Applies(root, v, "items", y, rules, 0) <==> Accepts(root, child, x, rules, 0) by {
      assert y.items[0] == x;
    }
    if Accepts(root, child, x, rules, 0) {
      forall j | j in v.fields && IsApplicator(j) ensures Applies(root, v, j, y, rules, 0) {
      }
      AcceptedBy(root, v, y, rules);
    } else {
      RejectedBy(root, v, y, rules, "items");
    }
  }

  lemma {:induction false} FreshName(names: set<string>) returns (p: string)
    ensures forall q | q in names :: |q| < |p|
    decreases |names|
  {
    if names == {} {
      return "p";
    }
    var q :| q in names;
    p := FreshName(names - {q});
    if |p| <= |q| {
      p := q + "p";
    }
  }

  lemma SimpleWithin(v: Json, w: Json)
    requires v.Obj? && !IsReference(v) && Simple(v) && Matching(v, w)
    ensures Within(v) && Within(w)
  {
    RolesOfKeywords();
    hide RoleOf;
  }

  /** Where the loss is: an assertion of the schema itself, or something below a keyword. */
  lemma LossFound(v: Json, w: Json) returns (k: string)
    requires Simple(v) && Matching(v, w) && !SameAssertions(v, w)
    ensures v.Obj? && w.Obj? && !IsReference(v) && k in v.fields && k in w.fields
    ensures if RoleOf(k).Assertion? then w.fields[k] != v.fields[k]
            else IsApplicator(k) && SimpleChild(k, v.fields[k]) && !SameBelow(k, v.fields[k], w.fields[k])
  {
    RolesOfKeywords();
    hide RoleOf, IsReference, SameBelow, SimpleChild, MatchingTable;
    if j :| j in v.fields && RoleOf(j).Assertion? && w.fields[j] != v.fields[j] {
      return j;
    }
    k :| k in v.fields && IsApplicator(k) && !SameBelow(k, v.fields[k], w.fields[k]);
  }

  lemma PropertyFound(c: Json, d: Json) returns (p: string)
    requires SimpleChild("properties", c) && MatchingTable(c, d) && !SameBelow("properties", c, d)
    ensures c.Obj? && d.Obj? && p in c.fields && p in d.fields
    ensures Simple(c.fields[p]) && Matching(c.fields[p], d.fields[p]) && !SameAssertions(c.fields[p], d.fields[p])
  {
    RolesOfKeywords();
    hide RoleOf, Simple, Matching, SameAssertions;
    p :| p in c.fields && !SameAssertions(c.fields[p], d.fields[p]);
  }

  /** A simple schema that lost an assertion rejects something that its successor accepts. */
  lemma {:induction false} Distinguished(root: Json, root': Json, v: Json, w: Json) returns (k: string, c: Json, x: Json)
    requires Simple(v) && Matching(v, w) && !SameAssertions(v, w)
    ensures !Accepts(root, v, x, Mark(k, c), 0) && Accepts(root', w, x, Mark(k, c), 0)
    decreases v, 1
  {
    hide Simple, SameAssertions, SameBelow, SimpleChild, RoleOf, Accepts, IsReference, Within, Mark, Matching;
    var j := LossFound(v, w);
    SimpleWithin(v, w);
    if RoleOf(j).Assertion? {
      k, c, x := j, v.fields[j], Null;
      NullRejected(root, v, k);
      NullAccepted(root', w, k, c);
    } else {
      k, c, x := DistinguishedBelow(root, root', v, w, j);
    }
  }

  lemma {:induction false} DistinguishedBelow(root: Json, root': Json, v: Json, w: Json, j: string)
    returns (k: string, c: Json, x: Json)
    requires Within(v) && Within(w) && Matching(v, w) && j in v.fields && j in w.fields
    requires IsApplicator(j) && SimpleChild(j, v.fields[j]) && !SameBelow(j, v.fields[j], w.fields[j])
    ensures !Accepts(root, v, x, Mark(k, c), 0) && Accepts(root', w, x, Mark(k, c), 0)
    decreases v, 0
  {
    assert j == "properties" || j == "additionalProperties" || j == "items";
    assert j == "additionalProperties" || j == "items" ==> RoleOf(j).Subschema?;
    var child, child' := v.fields[j], w.fields[j];
    hide Simple, SameAssertions, RoleOf, Accepts, IsReference, Within, Mark, MatchingTable;
    if j == "properties" {
      hide SimpleChild, SameBelow;
      var p := PropertyFound(child, child');
      k, c, x := Distinguished(root, root', child.fields[p], child'.fields[p]);
      DeclaredMember(root, v, p, x, k, c);
      DeclaredMember(root', w, p, x, k, c);
      x := One(p, x);
    } else {
      assert Matching(child, child') && !child'.Arr?;
      k, c, x := Distinguished(root, root', child, child');
      if j == "items" {
        OnlyItem(root, v, x, k, c);
        OnlyItem(root', w, x, k, c);
        x := Arr([x]);
      } else {
        var p := FreshName(Declared(v) + Declared(w));
        ExtraMember(root, v, p, x, k, c);
        ExtraMember(root', w, p, x, k, c);
        x := One(p, x);
      }
    }
  }

  function Declared(v: Json): set<string> {
    if v.Obj? && "properties" in v.fields && v.fields["properties"].Obj? then v.fields["properties"].fields.Keys else {}
  }

  // ---- the whole bundle -------------------------------------------------------

  ghost predicate SimpleBundle(root: Json) {
    Simple(root) && forall ref | Resolve(root, ref).Some? :: Simple(Resolve(root, ref).value)
  }

  /** The bundle and its definitions accept the same, whatever assertions mean and however deep references are followed. */
  ghost predicate KeepsMeaning(root: Json, w: Json) {
    forall rules: Rules, n: nat :: Agree(Bundle(root, w, rules), n, root, w) && DefinitionsAgree(Bundle(root, w, rules), n)
  }

  /** A schema that means the same whatever assertions mean is plain. */
  lemma PlainForced(root: Json, root': Json, v: Json, base: string)
    requires Simple(v) && Annotate(v, base, None, None).Some?
    requires forall rules: Rules :: Agree(Bundle(root, root', rules), 0, v, Annotate(v, base, None, None).value)
    ensures Plain(v, base, None)
  {
    hide Annotate, Simple, Accepts, Plain, SameAssertions, Mark, Matching;
    var w := Annotate(v, base, None, None).value;
    SchemaKeptIff(v, base, None, None);
    AnnotateMatches(v, base, None, None);
    if !SameAssertions(v, w) {
      var rules := Disagreed(root, root', v, w);
    }
  }

  lemma Disagreed(root: Json, root': Json, v: Json, w: Json) returns (rules: Rules)
    requires Simple(v) && Matching(v, w) && !SameAssertions(v, w)
    ensures !Agree(Bundle(root, root', rules), 0, v, w)
  {
    hide Simple, Accepts, SameAssertions, Mark, Matching;
    var k, c, x := Distinguished(root, root', v, w);
    rules := Mark(k, c);
    assert Accepts(root, v, x, rules, 0) != Accepts(root', w, x, rules, 0);
  }

  lemma DefinitionResolved(root: Json, name: string)
    ensures Resolve(root, "#/definitions/" + name) == Definition(root, "definitions", name)
    ensures Resolve(root, "#/$defs/" + name) == Definition(root, "$defs", name)
  {
    hide Definition;
    var a, b := "#/definitions/" + name, "#/$defs/" + name;
    assert a[..14] == "#/definitions/" && a[14..] == name;
    assert b[..8] == "#/$defs/" && b[8..] == name;
    assert b[2] == '$';
  }

  lemma DefinitionPlain(root: Json, base: string, table: string, name: string, ref: string)
    requires Annotate(root, base, None, None).Some? && (table == "definitions" || table == "$defs")
    requires SimpleBundle(root) && KeepsMeaning(root, Annotate(root, base, None, None).value)
    requires (forall r: Json :: Resolve(r, ref) == Definition(r, table, name)) && Definition(root, table, name).Some?
    ensures Plain(Definition(root, table, name).value, name, None)
  {
    hide Annotate, Simple, Agree, Plain, Definition, Resolve;
    var w, v := Annotate(root, base, None, None).value, Definition(root, table, name).value;
    DefinitionKept(root, base, table, name);
    assert Resolve(root, ref) == Some(v) && Resolve(w, ref) == Annotate(v, name, None, None);
    forall rules: Rules ensures Agree(Bundle(root, w, rules), 0, v, Annotate(v, name, None, None).value) {
      assert DefinitionsAgree(Bundle(root, w, rules), 0);
    }
    PlainForced(root, w, v, name);
  }

  /**
   * Normalising the titles of a simple bundle keeps its meaning, and that of all its
   * definitions, exactly when no assertion carries data that the walk would title.
   */
  lemma MeaningKeptIff(root: Json, base: string)
    requires Annotate(root, base, None, None).Some? && SimpleBundle(root)
    ensures KeepsMeaning(root, Annotate(root, base, None, None).value) <==> Plain(root, base, None) && PlainDefinitions(root)
  {
    hide Annotate, Simple, Agree, DefinitionsAgree, Plain, Definition, Resolve, SimpleBundle;
    var w := Annotate(root, base, None, None).value;
    if Plain(root, base, None) && PlainDefinitions(root) {
      forall rules: Rules, n: nat
        ensures Agree(Bundle(root, w, rules), n, root, w) && DefinitionsAgree(Bundle(root, w, rules), n)
      {
        AnnotateKeepsMeaning(root, base, rules, n);
      }
    }
    if KeepsMeaning(root, w) {
      assert Simple(root) by { SimpleRoot(root); }
      forall rules: Rules ensures Agree(Bundle(root, w, rules), 0, root, w) {
        assert Agree(Bundle(root, w, rules), 0, root, w) && DefinitionsAgree(Bundle(root, w, rules), 0);
      }
      PlainForced(root, w, root, base);
      forall name | Definition(root, "definitions", name).Some? ensures Plain(Definition(root, "definitions", name).value, name, None) {
        forall r: Json ensures Resolve(r, "#/definitions/" + name) == Definition(r, "definitions", name) { DefinitionResolved(r, name); }
        DefinitionPlain(root, base, "definitions", name, "#/definitions/" + name);
      }
      forall name | Definition(root, "$defs", name).Some? ensures Plain(Definition(root, "$defs", name).value, name, None) {
        forall r: Json ensures Resolve(r, "#/$defs/" + name) == Definition(r, "$defs", name) { DefinitionResolved(r, name); }
        DefinitionPlain(root, base, "$defs", name, "#/$defs/" + name);
      }
    }
  }

  lemma SimpleRoot(root: Json)
    requires SimpleBundle(root)
    ensures Simple(root)
  {
  }
}
