/**
 * What a schema bundle accepts, by the keywords of JSON Schema draft-07 and with
 * references into its definitions, and why title normalisation does not change it.
 */
module SchemaAcceptance {
  import opened Wrappers
  import opened Text
  import opened SchemaTitles
  import opened SchemaSettled

  // ---- keywords ---------------------------------------------------------------

  datatype Role = Table | Alternatives | Subschema | Annotation | Assertion

  /** What a keyword's value is: schemas by name, a list of them, one of them, no constraint, or data. */
  function RoleOf(k: string): Role {
    if k == "properties" || k == "patternProperties" then Table
    else if k == "oneOf" || k == "anyOf" || k == "allOf" then Alternatives
    else if k == "additionalProperties" || k == "propertyNames" || k == "items" || k == "additionalItems"
         || k == "contains" || k == "not" || k == "if" || k == "then" || k == "else" then Subschema
    else if k == "title" || k == "description" || k == "default" || k == "examples" || k == "definitions" || k == "$defs"
    then Annotation
    else Assertion
  }

  predicate IsApplicator(k: string) {
    RoleOf(k).Table? || RoleOf(k).Alternatives? || RoleOf(k).Subschema?
  }

  /** The meaning of assertion keywords, and of the patterns of `patternProperties`. */
  datatype Rules = Rules(check: (string, Json, Json) -> bool, matches: (string, string) -> bool)

  // ---- references -------------------------------------------------------------

  /** An object with a reference; all its other members are ignored. */
  predicate IsReference(v: Json) {
    v.Obj? && "$ref" in v.fields && v.fields["$ref"].Str?
  }

  function Definition(root: Json, table: string, name: string): Option<Json> {
    if root.Obj? && table in root.fields && root.fields[table].Obj? && name in root.fields[table].fields
    then Some(root.fields[table].fields[name]) else None
  }

  function Resolve(root: Json, ref: string): Option<Json> {
    if StartsWith(ref, "#/definitions/") then Definition(root, "definitions", ref[14..])
    else if StartsWith(ref, "#/$defs/") then Definition(root, "$defs", ref[8..])
    else None
  }

  // ---- validation -------------------------------------------------------------

  predicate Declares(v: Json, p: string, rules: Rules)
    requires v.Obj?
  {
    || ("properties" in v.fields && v.fields["properties"].Obj? && p in v.fields["properties"].fields)
    || ("patternProperties" in v.fields && v.fields["patternProperties"].Obj?
        && exists q | q in v.fields["patternProperties"].fields :: rules.matches(q, p))
  }

  function CountAccepting(root: Json, schemas: seq<Json>, x: Json, rules: Rules, n: nat): nat
    decreases n, schemas, 0
  {
    if schemas == [] then 0
    else (if Accepts(root, schemas[0], x, rules, n) then 1 else 0) + CountAccepting(root, schemas[1..], x, rules, n)
  }

  /** Whether the keyword `k` of the schema lets the instance pass. */
  predicate Applies(root: Json, v: Json, k: string, x: Json, rules: Rules, n: nat)
    requires v.Obj? && k in v.fields
    decreases n, v, 1
  {
    var child := v.fields[k];
    if k == "properties" then
      child.Obj? && x.Obj? ==>
        forall p | p in child.fields && p in x.fields :: Accepts(root, child.fields[p], x.fields[p], rules, n)
    else if k == "patternProperties" then
      child.Obj? && x.Obj? ==>
        forall q, p | q in child.fields && p in x.fields && rules.matches(q, p) ::
          Accepts(root, child.fields[q], x.fields[p], rules, n)
    else if k == "additionalProperties" then
      x.Obj? ==> forall p | p in x.fields && !Declares(v, p, rules) :: Accepts(root, child, x.fields[p], rules, n)
    else if k == "propertyNames" then
      x.Obj? ==> forall p | p in x.fields :: Accepts(root, child, Str(p), rules, n)
    else if k == "items" then
      x.Arr? ==> forall i | 0 <= i < |x.items| ::
        if child.Arr? then (i < |child.items| ==> Accepts(root, child.items[i], x.items[i], rules, n))
        else Accepts(root, child, x.items[i], rules, n)
    else if k == "additionalItems" then
      x.Arr? && "items" in v.fields && v.fields["items"].Arr? ==>
        forall i | |v.fields["items"].items| <= i < |x.items| :: Accepts(root, child, x.items[i], rules, n)
    else if k == "contains" then
      x.Arr? ==> exists i | 0 <= i < |x.items| :: Accepts(root, child, x.items[i], rules, n)
    else if k == "not" then !Accepts(root, child, x, rules, n)
    else if k == "if" then
      if Accepts(root, child, x, rules, n) then "then" in v.fields ==> Accepts(root, v.fields["then"], x, rules, n)
      else "else" in v.fields ==> Accepts(root, v.fields["else"], x, rules, n)
    else if k == "oneOf" then child.Arr? ==> CountAccepting(root, child.items, x, rules, n) == 1
    else if k == "anyOf" then child.Arr? ==> CountAccepting(root, child.items, x, rules, n) > 0
    else if k == "allOf" then child.Arr? ==> CountAccepting(root, child.items, x, rules, n) == |child.items|
    else true
  }

  /**
   * Validation against a schema of the bundle, following references `n` levels deep. A
   * reference beyond that depth constrains nothing; one that leads nowhere is left to
   * the rules.
   */
  predicate Accepts(root: Json, v: Json, x: Json, rules: Rules, n: nat)
    decreases n, v, 2
  {
    match v
    case Bool(b) => b
    case Obj(m) =>
      if IsReference(v) then
        var target := Resolve(root, m["$ref"].s);
        if target.None? then rules.check("$ref", m["$ref"], x)
        else n > 0 ==> Accepts(root, target.value, x, rules, n - 1)
      else
        && (forall k | k in m && RoleOf(k).Assertion? :: rules.check(k, m[k], x))
        && (forall k | k in m && IsApplicator(k) :: Applies(root, v, k, x, rules, n))
    case _ => true
  }

  // ---- two bundles that accept the same ---------------------------------------

  datatype Bundle = Bundle(root: Json, annotated: Json, rules: Rules)

  /** The first schema in the original bundle accepts what the second accepts in the annotated one. */
  ghost predicate Agree(b: Bundle, n: nat, v: Json, w: Json) {
    forall x :: Accepts(b.root, v, x, b.rules, n) == Accepts(b.annotated, w, x, b.rules, n)
  }

  ghost predicate ListsAgree(b: Bundle, n: nat, c: seq<Json>, d: seq<Json>) {
    |c| == |d| && forall i | 0 <= i < |c| :: Agree(b, n, c[i], d[i])
  }

  ghost predicate TablesAgree(b: Bundle, n: nat, c: Json, d: Json) {
    && c.Obj? == d.Obj?
    && (c.Obj? ==> c.fields.Keys == d.fields.Keys && forall p | p in c.fields :: Agree(b, n, c.fields[p], d.fields[p]))
  }

  ghost predicate SchemasAgree(b: Bundle, n: nat, c: Json, d: Json) {
    && c.Arr? == d.Arr? && (c.Arr? ==> ListsAgree(b, n, c.items, d.items))
    && Agree(b, n, c, d)
  }

  ghost predicate AlternativesAgree(b: Bundle, n: nat, c: Json, d: Json) {
    c.Arr? == d.Arr? && (c.Arr? ==> ListsAgree(b, n, c.items, d.items))
  }

  ghost predicate ChildAgrees(b: Bundle, n: nat, k: string, c: Json, d: Json) {
    if RoleOf(k).Table? then TablesAgree(b, n, c, d)
    else if RoleOf(k).Alternatives? then AlternativesAgree(b, n, c, d)
    else SchemasAgree(b, n, c, d)
  }

  /** Same keywords apart from titles, and every applicator has the same effect. */
  ghost predicate ChildrenAgree(b: Bundle, n: nat, v: Json, w: Json) {
    && v.Obj? && w.Obj?
    && (forall k | k != "title" :: k in v.fields <==> k in w.fields)
    && (forall k | k in v.fields && IsApplicator(k) :: k in w.fields && ChildAgrees(b, n, k, v.fields[k], w.fields[k]))
  }

  lemma {:induction false} CountsAgree(b: Bundle, n: nat, c: seq<Json>, d: seq<Json>, x: Json)
    requires ListsAgree(b, n, c, d)
    ensures CountAccepting(b.root, c, x, b.rules, n) == CountAccepting(b.annotated, d, x, b.rules, n)
    decreases |c|
  {
    hide Accepts;
    if c != [] {
      assert Agree(b, n, c[0], d[0]);
      forall i | 0 <= i < |c| - 1 ensures Agree(b, n, c[1..][i], d[1..][i]) {
        assert c[1..][i] == c[i + 1] && d[1..][i] == d[i + 1];
      }
      CountsAgree(b, n, c[1..], d[1..], x);
    }
  }

  lemma RolesOfKeywords()
    ensures RoleOf("properties").Table? && RoleOf("patternProperties").Table?
    ensures RoleOf("oneOf").Alternatives? && RoleOf("anyOf").Alternatives? && RoleOf("allOf").Alternatives?
    ensures RoleOf("items").Subschema? && RoleOf("then").Subschema? && RoleOf("else").Subschema?
    ensures RoleOf("title").Annotation? && RoleOf("$ref").Assertion?
  {
  }

  lemma DeclaresAlike(b: Bundle, n: nat, v: Json, w: Json, p: string)
    requires ChildrenAgree(b, n, v, w)
    ensures Declares(v, p, b.rules) == Declares(w, p, b.rules)
  {
    RolesOfKeywords();
    hide RoleOf, Agree, SchemasAgree;
    if "properties" in v.fields {
      assert ChildAgrees(b, n, "properties", v.fields["properties"], w.fields["properties"]);
    }
    if "patternProperties" in v.fields {
      assert ChildAgrees(b, n, "patternProperties", v.fields["patternProperties"], w.fields["patternProperties"]);
    }
  }

  lemma TablesApplyAlike(b: Bundle, n: nat, v: Json, w: Json, k: string, x: Json)
    requires v.Obj? && w.Obj? && k in v.fields && k in w.fields && TablesAgree(b, n, v.fields[k], w.fields[k])
    requires k == "properties" || k == "patternProperties"
    ensures Applies(b.root, v, k, x, b.rules, n) == Applies(b.annotated, w, k, x, b.rules, n)
  {
    hide Accepts;
    var c, d := v.fields[k], w.fields[k];
    if c.Obj? && x.Obj? {
      forall p, y | p in c.fields
        ensures Accepts(b.root, c.fields[p], y, b.rules, n) == Accepts(b.annotated, d.fields[p], y, b.rules, n)
      {
        assert Agree(b, n, c.fields[p], d.fields[p]);
      }
    }
  }

  lemma ListsApplyAlike(b: Bundle, n: nat, v: Json, w: Json, k: string, x: Json)
    requires v.Obj? && w.Obj? && k in v.fields && k in w.fields && AlternativesAgree(b, n, v.fields[k], w.fields[k])
    requires RoleOf(k).Alternatives?
    ensures Applies(b.root, v, k, x, b.rules, n) == Applies(b.annotated, w, k, x, b.rules, n)
  {
    hide Accepts, CountAccepting;
    if v.fields[k].Arr? {
      CountsAgree(b, n, v.fields[k].items, w.fields[k].items, x);
    }
  }

  lemma ItemsApplyAlike(b: Bundle, n: nat, v: Json, w: Json, x: Json)
    requires v.Obj? && w.Obj? && "items" in v.fields && "items" in w.fields
    requires SchemasAgree(b, n, v.fields["items"], w.fields["items"])
    ensures Applies(b.root, v, "items", x, b.rules, n) == Applies(b.annotated, w, "items", x, b.rules, n)
  {
    hide Accepts;
    var c, d := v.fields["items"], w.fields["items"];
    if c.Arr? {
      forall i, y | 0 <= i < |c.items|
        ensures Accepts(b.root, c.items[i], y, b.rules, n) == Accepts(b.annotated, d.items[i], y, b.rules, n)
      {
        assert Agree(b, n, c.items[i], d.items[i]);
      }
    }
  }

  /** The other keywords with one schema, which may look at their neighbours. */
  lemma SchemaAppliesAlike(b: Bundle, n: nat, v: Json, w: Json, k: string, x: Json)
    requires ChildrenAgree(b, n, v, w) && k in v.fields && RoleOf(k).Subschema? && k != "items"
    ensures k in w.fields && Applies(b.root, v, k, x, b.rules, n) == Applies(b.annotated, w, k, x, b.rules, n)
  {
    hide Accepts, Declares;
    var c, d := v.fields[k], w.fields[k];
    assert ChildAgrees(b, n, k, c, d);
    if k == "additionalProperties" {
      forall p ensures Declares(v, p, b.rules) == Declares(w, p, b.rules) { DeclaresAlike(b, n, v, w, p); }
    } else if k == "additionalItems" {
      if "items" in v.fields {
        assert ChildAgrees(b, n, "items", v.fields["items"], w.fields["items"]);
      }
    } else if k == "if" {
      if "then" in v.fields { assert ChildAgrees(b, n, "then", v.fields["then"], w.fields["then"]); }
      if "else" in v.fields { assert ChildAgrees(b, n, "else", v.fields["else"], w.fields["else"]); }
    }
  }

  lemma AppliesAlike(b: Bundle, n: nat, v: Json, w: Json, k: string, x: Json)
    requires ChildrenAgree(b, n, v, w) && k in v.fields && IsApplicator(k)
    ensures k in w.fields && Applies(b.root, v, k, x, b.rules, n) == Applies(b.annotated, w, k, x, b.rules, n)
  {
    hide Applies, TablesAgree, SchemasAgree;
    assert ChildAgrees(b, n, k, v.fields[k], w.fields[k]);
    if RoleOf(k).Table? {
      TablesApplyAlike(b, n, v, w, k, x);
    } else if RoleOf(k).Alternatives? {
      ListsApplyAlike(b, n, v, w, k, x);
    } else if k == "items" {
      ItemsApplyAlike(b, n, v, w, x);
    } else {
      SchemaAppliesAlike(b, n, v, w, k, x);
    }
  }

  /** Schemas without reference whose assertions are equal and whose applicators agree accept the same. */
  lemma FieldsAgree(b: Bundle, n: nat, v: Json, w: Json)
    requires ChildrenAgree(b, n, v, w) && !IsReference(v) && !IsReference(w)
    requires forall k | k in v.fields && RoleOf(k).Assertion? :: k in w.fields && v.fields[k] == w.fields[k]
    ensures Agree(b, n, v, w)
  {
    RolesOfKeywords();
    hide RoleOf, Applies, ChildAgrees, IsReference;
    forall x ensures Accepts(b.root, v, x, b.rules, n) == Accepts(b.annotated, w, x, b.rules, n) {
      forall k | k in v.fields && IsApplicator(k)
        ensures k in w.fields && Applies(b.root, v, k, x, b.rules, n) == Applies(b.annotated, w, k, x, b.rules, n)
      {
        AppliesAlike(b, n, v, w, k, x);
      }
    }
  }

  // ---- references in both bundles ---------------------------------------------

  /** Every reference leads to schemas that agree, or nowhere in both. */
  ghost predicate DefinitionsAgree(b: Bundle, n: nat) {
    forall ref ::
      && Resolve(b.root, ref).Some? == Resolve(b.annotated, ref).Some?
      && (Resolve(b.root, ref).Some? ==> Agree(b, n, Resolve(b.root, ref).value, Resolve(b.annotated, ref).value))
  }

  /** References agree as deep as they will still be followed. */
  ghost predicate Ready(b: Bundle, n: nat) {
    && (forall ref :: Resolve(b.root, ref).Some? == Resolve(b.annotated, ref).Some?)
    && (n > 0 ==> DefinitionsAgree(b, n - 1))
  }

  lemma ReferencesAgree(b: Bundle, n: nat, v: Json, w: Json)
    requires Ready(b, n) && IsReference(v) && IsReference(w) && v.fields["$ref"] == w.fields["$ref"]
    ensures Agree(b, n, v, w)
  {
    hide Resolve;
    var ref := v.fields["$ref"].s;
    var target, target' := Resolve(b.root, ref), Resolve(b.annotated, ref);
    if target.Some? && n > 0 {
      assert Agree(b, n - 1, target.value, target'.value);
    }
    forall x ensures Accepts(b.root, v, x, b.rules, n) == Accepts(b.annotated, w, x, b.rules, n) {
    }
  }

  /** A schema without object accepts alike in any bundle. */
  lemma OthersAgree(b: Bundle, n: nat, v: Json, w: Json)
    requires !v.Obj? && !w.Obj? && (v.Bool? || w.Bool? ==> v == w)
    ensures Agree(b, n, v, w)
  {
  }

  /** A schema that was not touched still accepts the same. */
  lemma {:induction false} UntouchedAgrees(b: Bundle, n: nat, v: Json)
    requires Ready(b, n)
    ensures Agree(b, n, v, v)
    decreases v, 0
  {
    hide Agree, ChildAgrees, IsApplicator, DefinitionsAgree, Resolve;
    if !v.Obj? {
      OthersAgree(b, n, v, v);
    } else if IsReference(v) {
      ReferencesAgree(b, n, v, v);
    } else {
      forall k | k in v.fields && IsApplicator(k) ensures ChildAgrees(b, n, k, v.fields[k], v.fields[k]) {
        UntouchedChild(b, n, k, v.fields[k]);
      }
      FieldsAgree(b, n, v, v);
    }
  }

  lemma {:induction false} UntouchedChild(b: Bundle, n: nat, k: string, c: Json)
    requires Ready(b, n)
    ensures ChildAgrees(b, n, k, c, c)
    decreases c, 1
  {
    hide Agree, RoleOf, Ready;
    UntouchedAgrees(b, n, c);
    if c.Obj? {
      forall p | p in c.fields ensures Agree(b, n, c.fields[p], c.fields[p]) { UntouchedAgrees(b, n, c.fields[p]); }
    } else if c.Arr? {
      forall i | 0 <= i < |c.items| ensures Agree(b, n, c.items[i], c.items[i]) { UntouchedAgrees(b, n, c.items[i]); }
    }
  }

  // ---- schemas whose data the walk leaves alone -------------------------------

  /**
   * In the schema, and in every schema inside it, no assertion carries data that the
   * walk would title. The walk reaches the schema under `base`, and under `owner` if it
   * takes it for a table of properties.
   */
  predicate Plain(v: Json, base: string, owner: Option<string>)
    decreases v, 2
  {
    v.Obj? && !IsReference(v) ==>
      && (forall k | k in v.fields && RoleOf(k).Assertion? :: SettledField(v, k, base, owner))
      && (forall k | k in v.fields && IsApplicator(k) :: PlainChild(k, v.fields[k], base))
  }

  predicate PlainChild(k: string, c: Json, base: string)
    decreases c, 3
  {
    if RoleOf(k).Table? then c.Obj? ==> forall p | p in c.fields :: PlainProperty(c, p, base)
    else if c.Arr? then forall i | 0 <= i < |c.items| :: Plain(c.items[i], base, None)
    else RoleOf(k).Subschema? ==> Plain(c, base, None)
  }

  /** Some property names look like keywords to the walk, which then treats the property's schema differently. */
  predicate PlainProperty(p: Json, k: string, base: string)
    requires p.Obj? && k in p.fields
    decreases p, 1
  {
    var child := p.fields[k];
    if k == "oneOf" || k == "anyOf" then true
    else if k == "definitions" || k == "$defs" then child.Obj? && !IsReference(child) ==> PlainSpread(child)
    else if k == "properties" && TitleOf(p).Some? then Plain(child, base, TitleOf(p))
    else Plain(child, base, None)
  }

  /** A property called `definitions` has each of its keywords walked under that keyword's name. */
  predicate PlainSpread(s: Json)
    requires s.Obj?
    decreases s, 1
  {
    && (forall k | k in s.fields && RoleOf(k).Assertion? :: Settled(s.fields[k], k, None))
    && (forall k | k in s.fields && IsApplicator(k) :: PlainChild(k, s.fields[k], k))
  }

  /** Keywords that constrain are no special names to the walk, apart from the applicators it knows. */
  lemma OrdinaryKeywords(k: string)
    ensures RoleOf(k).Assertion? ==>
              k != "title" && k != "oneOf" && k != "anyOf" && k != "definitions" && k != "$defs" && k != "properties"
    ensures IsApplicator(k) ==> k != "title" && k != "definitions" && k != "$defs" && k !in DISCRIMINATOR_KEYS
  {
    if k in DISCRIMINATOR_KEYS {
      DiscriminatorKeywords(k);
    }
    hide DISCRIMINATOR_KEYS;
  }

  lemma DiscriminatorKeywords(k: string)
    requires k in DISCRIMINATOR_KEYS
    ensures RoleOf(k).Assertion?
  {
  }

  /** Settled data stays as it is, also where a title is pending. */
  lemma AssertionKept(v: Json, k: string, base: string, title: Option<string>, owner: Option<string>)
    requires v.Obj? && k in v.fields && RoleOf(k).Assertion? && SettledField(v, k, base, owner)
    ensures AnnotateField(v, k, base, title, owner) == Some(v.fields[k])
  {
    hide Annotate, AnnotateVariants, AnnotateDefinitions, Settled, DISCRIMINATOR_KEYS, Untitled, WellNamed;
    OrdinaryKeywords(k);
    hide RoleOf;
    UnchangedIffSettled(v.fields[k], base, None);
  }

  lemma ReferenceKept(v: Json, w: Json, base: string, title: Option<string>, owner: Option<string>)
    requires v.Obj? && SchemaTitles.Result(v, base, title, owner, w)
    ensures IsReference(v) ==> IsReference(w) && w.fields["$ref"] == v.fields["$ref"]
  {
    hide AnnotateVariants, AnnotateDefinitions, DISCRIMINATOR_KEYS, ToPascalCase;
    if IsReference(v) {
      assert AnnotateField(v, "$ref", base, title, owner) == Some(v.fields["$ref"]);
    }
  }

  // ---- the walk keeps what a schema accepts -----------------------------------

  lemma {:induction false} SchemaKept(b: Bundle, n: nat, v: Json, base: string, title: Option<string>, owner: Option<string>)
    requires Ready(b, n) && Plain(v, base, owner) && Annotate(v, base, title, owner).Some?
    ensures Agree(b, n, v, Annotate(v, base, title, owner).value)
    decreases v, 3
  {
    hide AnnotateField, Agree, ChildAgrees, SettledField, PlainChild, RoleOf, Ready;
    var w := Annotate(v, base, title, owner).value;
    if !v.Obj? {
      OthersAgree(b, n, v, w);
    } else {
      Opened(v, base, title, owner);
      hide Annotate;
      ReferenceKept(v, w, base, title, owner);
      if IsReference(v) {
        ReferencesAgree(b, n, v, w);
      } else {
        forall k | k in v.fields && RoleOf(k).Assertion? ensures w.fields[k] == v.fields[k] {
          AssertionKept(v, k, base, title, owner);
        }
        assert !IsReference(w) by { RolesOfKeywords(); }
        forall k | k in v.fields && IsApplicator(k) ensures ChildAgrees(b, n, k, v.fields[k], w.fields[k]) {
          ApplicatorKept(b, n, v, k, base, title, owner);
        }
        FieldsAgree(b, n, v, w);
      }
    }
  }

  lemma {:induction false} ApplicatorKept(
    b: Bundle, n: nat, v: Json, k: string, base: string, title: Option<string>, owner: Option<string>)
    requires Ready(b, n) && v.Obj? && k in v.fields && IsApplicator(k) && PlainChild(k, v.fields[k], base)
    requires AnnotateField(v, k, base, title, owner).Some?
    ensures ChildAgrees(b, n, k, v.fields[k], AnnotateField(v, k, base, title, owner).value)
    decreases v, 2
  {
    hide Annotate, AnnotateVariants, AnnotateDefinitions, Agree, Untitled, ToPascalCase, OwnTitle, Ready, DISCRIMINATOR_KEYS, TablesAgree, PlainProperty;
    var child := v.fields[k];
    OrdinaryKeywords(k);
    RolesOfKeywords();
    if k == "oneOf" || k == "anyOf" {
      if child.Arr? {
        VariantsKept(b, n, child.items, base, Titles(child.items));
        OthersAgree(b, n, child, Arr(AnnotateVariants(child.items, base, Titles(child.items)).value));
      } else {
        UntouchedChild(b, n, k, child);
      }
    } else if k == "properties" {
      PropertiesField(v, base, title, owner);
      TableKept(b, n, child, base, OwnTitle(v.fields, title));
    } else {
      ChildKept(b, n, k, child, base);
    }
  }

  /** An applicator's value annotated as a schema keeps its effect. */
  lemma {:induction false} ChildKept(b: Bundle, n: nat, k: string, c: Json, base: string)
    requires Ready(b, n) && IsApplicator(k) && PlainChild(k, c, base) && Annotate(c, base, None, None).Some?
    ensures ChildAgrees(b, n, k, c, Annotate(c, base, None, None).value)
    decreases c, 4
  {
    hide AnnotateField, Agree, Ready, RoleOf, TablesAgree, PlainProperty, Plain;
    KindKept(c, base, None, None);
    if RoleOf(k).Table? {
      TableKept(b, n, c, base, None);
    } else if c.Arr? {
      ItemsAt(c.items, base);
      var out := AnnotateItems(c.items, base).value;
      forall i | 0 <= i < |c.items| ensures Agree(b, n, c.items[i], out[i]) {
        SchemaKept(b, n, c.items[i], base, None, None);
      }
      OthersAgree(b, n, c, Arr(out));
    } else if RoleOf(k).Subschema? {
      SchemaKept(b, n, c, base, None, None);
    }
  }

  lemma {:induction false} VariantsKept(b: Bundle, n: nat, variants: seq<Json>, base: string, seen: set<string>)
    requires Ready(b, n) && AnnotateVariants(variants, base, seen).Some?
    requires forall i | 0 <= i < |variants| :: Plain(variants[i], base, None)
    ensures ListsAgree(b, n, variants, AnnotateVariants(variants, base, seen).value)
    decreases variants, 0
  {
    hide Annotate, NameVariant, Agree, Plain, Ready;
    if variants != [] {
      var v, rest := variants[0], variants[1..];
      var out := AnnotateVariants(variants, base, seen).value;
      var taken := seen;
      if v.Obj? {
        var naming := NameVariant(v, base, seen);
        SchemaKept(b, n, v, base, if naming.Rename? then Some(naming.title) else None, None);
        taken := if naming.Rename? then seen + {naming.title} else seen;
      } else {
        OthersAgree(b, n, v, v);
      }
      VariantsKept(b, n, rest, base, taken);
      assert out[1..] == AnnotateVariants(rest, base, taken).value;
      forall i | 0 < i < |variants| ensures Agree(b, n, variants[i], out[i]) {
        assert variants[i] == rest[i - 1] && out[i] == out[1..][i - 1];
      }
    }
  }

  lemma {:induction false} TableKept(b: Bundle, n: nat, p: Json, base: string, owner: Option<string>)
    requires Ready(b, n) && (p.Obj? ==> forall k | k in p.fields :: PlainProperty(p, k, base))
    requires Annotate(p, base, None, owner).Some?
    ensures TablesAgree(b, n, p, Annotate(p, base, None, owner).value)
    decreases p, 1
  {
    hide Annotate, AnnotateField, Agree, PlainProperty, Ready;
    KindKept(p, base, None, owner);
    if p.Obj? {
      var q := Annotate(p, base, None, owner).value;
      Opened(p, base, None, owner);
      assert p.fields.Keys + Written(None) == p.fields.Keys;
      forall k | k in p.fields ensures Agree(b, n, p.fields[k], q.fields[k]) {
        PropertyKept(b, n, p, k, base, owner);
      }
    }
  }

  lemma {:induction false} PropertyKept(b: Bundle, n: nat, p: Json, k: string, base: string, owner: Option<string>)
    requires Ready(b, n) && p.Obj? && k in p.fields && PlainProperty(p, k, base) && AnnotateField(p, k, base, None, owner).Some?
    ensures Agree(b, n, p.fields[k], AnnotateField(p, k, base, None, owner).value)
    decreases p, 0
  {
    hide Annotate, AnnotateVariants, AnnotateDefinitions, Agree, Plain, PlainSpread, DISCRIMINATOR_KEYS, Untitled, ToPascalCase, Ready, TitleOf;
    var child := p.fields[k];
    if k == "oneOf" || k == "anyOf" {
      if child.Arr? {
        OthersAgree(b, n, child, Arr(AnnotateVariants(child.items, base, Titles(child.items)).value));
      } else {
        UntouchedAgrees(b, n, child);
      }
    } else if k == "definitions" || k == "$defs" {
      if child.Obj? {
        SpreadKept(b, n, child);
      } else {
        UntouchedAgrees(b, n, child);
      }
    } else if k == "properties" && TitleOf(p).Some? {
      SchemaKept(b, n, child, base, None, TitleOf(p));
    } else if owner.Some? && k in DISCRIMINATOR_KEYS && Untitled(child) {
      SchemaKept(b, n, child, base, Some(DiscriminatorTitle(owner.value, k)), None);
    } else {
      SchemaKept(b, n, child, base, None, None);
    }
  }

  lemma {:induction false} SpreadKept(b: Bundle, n: nat, s: Json)
    requires Ready(b, n) && s.Obj? && (!IsReference(s) ==> PlainSpread(s)) && AnnotateDefinitions(s).Some?
    ensures Agree(b, n, s, AnnotateDefinitions(s).value)
    decreases s, 2
  {
    hide Agree, ChildAgrees, RoleOf, Ready, Settled, PlainChild;
    var w := AnnotateDefinitions(s).value;
    if IsReference(s) {
      assert w.fields["$ref"] == s.fields["$ref"];
      ReferencesAgree(b, n, s, w);
    } else {
      hide Annotate;
      forall k | k in s.fields && RoleOf(k).Assertion? ensures s.fields[k] == w.fields[k] {
        UnchangedIffSettled(s.fields[k], k, None);
      }
      assert !IsReference(w) by { RolesOfKeywords(); }
      forall k | k in s.fields && IsApplicator(k) ensures ChildAgrees(b, n, k, s.fields[k], w.fields[k]) {
        ChildKept(b, n, k, s.fields[k], k);
      }
      FieldsAgree(b, n, s, w);
    }
  }

  // ---- the whole bundle -------------------------------------------------------

  /** The definitions a reference can lead to are plain under their own names. */
  ghost predicate PlainDefinitions(root: Json) {
    && (forall name | Definition(root, "definitions", name).Some? :: Plain(Definition(root, "definitions", name).value, name, None))
    && (forall name | Definition(root, "$defs", name).Some? :: Plain(Definition(root, "$defs", name).value, name, None))
  }

  lemma DefinitionKept(root: Json, base: string, table: string, name: string)
    requires Annotate(root, base, None, None).Some? && (table == "definitions" || table == "$defs")
    ensures var w := Annotate(root, base, None, None).value;
            var before, after := Definition(root, table, name), Definition(w, table, name);
            && before.Some? == after.Some?
            && (before.Some? ==> Annotate(before.value, name, None, None) == after)
  {
    hide Annotate;
    var w := Annotate(root, base, None, None).value;
    KindKept(root, base, None, None);
    if root.Obj? {
      Opened(root, base, None, None);
      assert root.fields.Keys + Written(None) == root.fields.Keys;
      hide AnnotateVariants;
      if table in root.fields {
        var child := root.fields[table];
        assert AnnotateField(root, table, base, None, None) == if child.Obj? then AnnotateDefinitions(child) else Some(child);
        if child.Obj? {
          TableAnnotated(child, name);
        }
      }
    }
  }

  lemma TableAnnotated(d: Json, name: string)
    requires d.Obj? && AnnotateDefinitions(d).Some?
    ensures var w := AnnotateDefinitions(d).value;
            && w.Obj? && (name in w.fields <==> name in d.fields)
            && (name in d.fields ==> Annotate(d.fields[name], name, None, None) == Some(w.fields[name]))
  {
    hide Annotate;
  }

  lemma ResolveKept(root: Json, base: string, ref: string)
    requires Annotate(root, base, None, None).Some? && PlainDefinitions(root)
    ensures var w := Annotate(root, base, None, None).value;
            var before, after := Resolve(root, ref), Resolve(w, ref);
            && before.Some? == after.Some?
            && (before.Some? ==> exists name :: Plain(before.value, name, None) && Annotate(before.value, name, None, None) == after)
  {
    hide Annotate, Definition, Plain;
    if StartsWith(ref, "#/definitions/") {
      DefinitionKept(root, base, "definitions", ref[14..]);
    } else if StartsWith(ref, "#/$defs/") {
      DefinitionKept(root, base, "$defs", ref[8..]);
    }
  }

  lemma {:induction false} BundleReady(b: Bundle, base: string, n: nat)
    requires PlainDefinitions(b.root) && Annotate(b.root, base, None, None) == Some(b.annotated)
    ensures Ready(b, n)
    decreases n
  {
    hide Annotate, Agree, Plain, Resolve, PlainDefinitions;
    forall ref ensures Resolve(b.root, ref).Some? == Resolve(b.annotated, ref).Some? {
      ResolveKept(b.root, base, ref);
    }
    if n > 0 {
      BundleReady(b, base, n - 1);
      forall ref | Resolve(b.root, ref).Some?
        ensures Agree(b, n - 1, Resolve(b.root, ref).value, Resolve(b.annotated, ref).value)
      {
        ResolveKept(b.root, base, ref);
        var target := Resolve(b.root, ref).value;
        var name :| Plain(target, name, None) && Annotate(target, name, None, None) == Resolve(b.annotated, ref);
        SchemaKept(b, n - 1, target, name, None, None);
      }
    }
  }

  /**
   * Normalising titles does not change what the bundle accepts, nor what any of its
   * definitions accepts, however deep references are followed and whatever the
   * assertion keywords and patterns mean, as long as no assertion carries data that the
   * walk would title.
   */
  lemma AnnotateKeepsMeaning(root: Json, base: string, rules: Rules, n: nat)
    requires Plain(root, base, None) && PlainDefinitions(root) && Annotate(root, base, None, None).Some?
    ensures var w := Annotate(root, base, None, None).value;
            var b := Bundle(root, w, rules);
            Agree(b, n, root, w) && DefinitionsAgree(b, n)
  {
    hide Annotate, Agree, Plain, PlainDefinitions;
    var b := Bundle(root, Annotate(root, base, None, None).value, rules);
    BundleReady(b, base, n);
    BundleReady(b, base, n + 1);
    SchemaKept(b, n, root, base, None, None);
  }

  // ---- data that the walk titles ----------------------------------------------

  /** The reading of `const`, with every other assertion ignored. */
  const ConstOnly := Rules((k: string, value: Json, x: Json) => k == "const" ==> value == x, (q: string, p: string) => false)

  function ConstSchema(c: Json): Json {
    Obj(map["const" := c])
  }

  lemma ConstSchemaAccepts(root: Json, c: Json, x: Json, n: nat)
    ensures Accepts(root, ConstSchema(c), x, ConstOnly, n) <==> c == x
  {
    var v := ConstSchema(c);
    assert forall k | k in v.fields :: k == "const";
    assert "const" in v.fields && RoleOf("const").Assertion?;
    assert !IsReference(v);
    assert Accepts(root, v, x, ConstOnly, n) ==> ConstOnly.check("const", v.fields["const"], x);
  }

  lemma ConstSchemaAnnotated(c: Json, base: string)
    requires Annotate(c, base, None, None).Some?
    ensures Annotate(ConstSchema(c), base, None, None) == Some(ConstSchema(Annotate(c, base, None, None).value))
  {
    hide Annotate, AnnotateField;
    var v, w := ConstSchema(c), ConstSchema(Annotate(c, base, None, None).value);
    PlainField(v, "const", base, None, None);
    assert w.fields.Keys == v.fields.Keys + Written(None);
    Closed(v, base, None, None, w);
  }

  /** A schema that fixes a constant keeps its meaning exactly when the constant is settled. */
  lemma ConstantKeptIff(c: Json, base: string, n: nat)
    requires Annotate(c, base, None, None).Some?
    ensures Annotate(ConstSchema(c), base, None, None).Some?
    ensures var w := Annotate(ConstSchema(c), base, None, None).value;
            Agree(Bundle(ConstSchema(c), w, ConstOnly), n, ConstSchema(c), w) <==> Settled(c, base, None)
  {
    hide Annotate, Accepts, Settled;
    var v, d := ConstSchema(c), Annotate(c, base, None, None).value;
    ConstSchemaAnnotated(c, base);
    UnchangedIffSettled(c, base, None);
    var w := ConstSchema(d);
    forall x ensures Accepts(v, v, x, ConstOnly, n) == (c == x) { ConstSchemaAccepts(v, c, x, n); }
    forall x ensures Accepts(w, w, x, ConstOnly, n) == (d == x) { ConstSchemaAccepts(w, d, x, n); }
    assert Accepts(v, v, c, ConstOnly, n);
  }

  /** A union whose only variant has no title yet is not settled. */
  lemma UnionNotSettled(variant: Json)
    requires variant == Obj(map["required" := Arr([Str("a")])])
    ensures !Settled(Obj(map["oneOf" := Arr([variant])]), "B", None)
  {
    hide ToPascalCase;
    var data := Obj(map["oneOf" := Arr([variant])]);
    assert VariantName("B", variant.fields) == Some(ToPascalCase("a") + "B");
    assert !WellNamed(variant, "B");
    assert data.fields["oneOf"].items[0] == variant;
    assert !SettledField(data, "oneOf", "B", None);
  }

  lemma UnionAnnotated(variant: Json)
    requires variant == Obj(map["required" := Arr([Str("a")])])
    ensures Annotate(Obj(map["oneOf" := Arr([variant])]), "B", None, None).Some?
  {
    hide ToPascalCase, AnnotateVariants, Annotate;
    var data := Obj(map["oneOf" := Arr([variant])]);
    VariantAnnotated(variant);
    var changed := AnnotateVariants([variant], "B", Titles([variant])).value;
    var data' := Obj(map["oneOf" := Arr(changed)]);
    assert AnnotateField(data, "oneOf", "B", None, None) == Some(Arr(changed));
    assert data'.fields.Keys == data.fields.Keys + Written(None);
    Closed(data, "B", None, None, data');
  }

  lemma VariantAnnotated(variant: Json)
    requires variant == Obj(map["required" := Arr([Str("a")])])
    ensures AnnotateVariants([variant], "B", Titles([variant])).Some?
  {
    hide ToPascalCase;
    var seen := Titles([variant]);
    assert TitleOf(variant).None?;
    assert seen == {};
    var name := ToPascalCase("a") + "B";
    assert VariantName("B", variant.fields) == Some(name);
    assert NameVariant(variant, "B", seen) == Rename(name);
    hide NameVariant, VariantName;
    var titled := Obj(variant.fields["title" := Str(name)]);
    assert Annotate(variant, "B", Some(name), None) == Some(titled) by {
      assert titled.fields.Keys == variant.fields.Keys + Written(Some(name));
      PlainField(variant, "required", "B", Some(name), None);
      UnchangedIffSettled(Arr([Str("a")]), "B", None);
      hide AnnotateField;
      Closed(variant, "B", Some(name), None, titled);
    }
    hide Annotate;
    assert [variant][1..] == [];
    assert AnnotateVariants([variant][1..], "B", seen + {name}) == Some([]);
  }

  /** With such a union as a constant the schema comes to reject what it accepted. */
  lemma ConstantsCanChange(n: nat)
    ensures var data := Obj(map["oneOf" := Arr([Obj(map["required" := Arr([Str("a")])])])]);
            var v := ConstSchema(data);
            && Annotate(v, "B", None, None).Some?
            && Accepts(v, v, data, ConstOnly, n)
            && !Accepts(Annotate(v, "B", None, None).value, Annotate(v, "B", None, None).value, data, ConstOnly, n)
  {
    hide Annotate, Accepts, Settled;
    var variant := Obj(map["required" := Arr([Str("a")])]);
    var data := Obj(map["oneOf" := Arr([variant])]);
    UnionAnnotated(variant);
    UnionNotSettled(variant);
    UnchangedIffSettled(data, "B", None);
    ConstSchemaAnnotated(data, "B");
    var d := Annotate(data, "B", None, None).value;
    ConstSchemaAccepts(ConstSchema(data), data, data, n);
    ConstSchemaAccepts(ConstSchema(d), d, data, n);
  }
}
