/**
 * The values title normalisation leaves alone, said without running it: every listed
 * variant already bears the name it deserves, and no discriminator under a titled
 * owner lacks its title.
 */
module SchemaSettled {
  import opened Wrappers
  import opened SchemaTitles

  /** Nothing in the value is to be titled, when it is reached under `base` and `owner`. */
  predicate Settled(v: Json, base: string, owner: Option<string>)
    decreases v, 1
  {
    match v
    case Arr(items) => forall i | 0 <= i < |items| :: Settled(items[i], base, None)
    case Obj(m) => forall k | k in m :: SettledField(v, k, base, owner)
    case _ => true
  }

  predicate SettledField(v: Json, k: string, base: string, owner: Option<string>)
    requires v.Obj? && k in v.fields
    decreases v, 0
  {
    var child := v.fields[k];
    if k == "oneOf" || k == "anyOf" then
      child.Arr? ==> forall i | 0 <= i < |child.items| ::
        child.items[i].Obj? ==> WellNamed(child.items[i], base) && Settled(child.items[i], base, None)
    else if k == "definitions" || k == "$defs" then
      child.Obj? ==> forall name | name in child.fields :: Settled(child.fields[name], name, None)
    else if k == "properties" && TitleOf(v).Some? then Settled(child, base, TitleOf(v))
    else !(owner.Some? && k in DISCRIMINATOR_KEYS && Untitled(child)) && Settled(child, base, None)
  }

  /** The variant bears the name derived from its shape, if there is one. */
  predicate WellNamed(v: Json, base: string)
    requires v.Obj?
  {
    base != "" && VariantName(base, v.fields).Some? ==> TitleOf(v) == VariantName(base, v.fields)
  }

  // ---- settled values are the fixed points ------------------------------------

  lemma FieldsUnchanged(v: Json, base: string, owner: Option<string>)
    requires v.Obj?
    ensures Annotate(v, base, None, owner) == Some(v) <==>
              forall k | k in v.fields :: AnnotateField(v, k, base, None, owner) == Some(v.fields[k])
  {
    hide Annotate, AnnotateField;
    assert v.fields.Keys + Written(None) == v.fields.Keys;
    if Annotate(v, base, None, owner) == Some(v) {
      Opened(v, base, None, owner);
    } else if forall k | k in v.fields :: AnnotateField(v, k, base, None, owner) == Some(v.fields[k]) {
      Closed(v, base, None, owner, v);
    }
  }

  /** Writing the title a node already has is no change. */
  lemma SameTitle(v: Json, base: string, title: string)
    requires v.Obj?
    ensures TitleOf(v) == Some(title) ==> Annotate(v, base, Some(title), None) == Annotate(v, base, None, None)
    ensures Annotate(v, base, Some(title), None) == Some(v) ==> TitleOf(v) == Some(title)
  {
    hide Annotate, AnnotateField;
    PendingTitle(v, base, title, None);
    if TitleOf(v) == Some(title) {
      assert v.fields["title" := Str(title)] == v.fields;
      assert SetTitle(v, title) == v;
    }
    if Annotate(v, base, Some(title), None) == Some(v) {
      Opened(v, base, Some(title), None);
    }
  }

  /** A walk changes nothing exactly when the value is settled. */
  lemma {:induction false} UnchangedIffSettled(v: Json, base: string, owner: Option<string>)
    ensures Annotate(v, base, None, owner) == Some(v) <==> Settled(v, base, owner)
    decreases v, 1
  {
    match v
    case Arr(items) =>
      ItemsUnchangedIff(items, base);
      hide AnnotateItems;
      assert Annotate(v, base, None, owner) == Some(v) <==> AnnotateItems(items, base) == Some(items);
    case Obj(m) =>
      hide AnnotateField, SettledField;
      forall k | k in m
        ensures AnnotateField(v, k, base, None, owner) == Some(m[k]) <==> SettledField(v, k, base, owner)
      {
        FieldUnchangedIff(v, k, base, owner);
      }
      FieldsUnchanged(v, base, owner);
      hide Annotate;
    case _ =>
  }

  lemma {:induction false} ItemsUnchangedIff(items: seq<Json>, base: string)
    ensures AnnotateItems(items, base) == Some(items) <==> forall i | 0 <= i < |items| :: Settled(items[i], base, None)
    decreases items, 0
  {
    hide Annotate, Settled;
    if items != [] {
      UnchangedIffSettled(items[0], base, None);
      ItemsUnchangedIff(items[1..], base);
      assert items == [items[0]] + items[1..];
      assert forall i | 0 < i < |items| :: items[i] == items[1..][i - 1];
      if AnnotateItems(items, base) == Some(items) {
        assert AnnotateItems(items[1..], base).value == items[1..];
      }
      if forall i | 0 <= i < |items| :: Settled(items[i], base, None) {
        assert forall i | 0 <= i < |items[1..]| :: items[1..][i] == items[i + 1];
      }
    }
  }

  lemma {:induction false} FieldUnchangedIff(v: Json, k: string, base: string, owner: Option<string>)
    requires v.Obj? && k in v.fields
    ensures AnnotateField(v, k, base, None, owner) == Some(v.fields[k]) <==> SettledField(v, k, base, owner)
    decreases v, 0
  {
    hide Annotate, AnnotateVariants, AnnotateDefinitions, Settled, WellNamed, DISCRIMINATOR_KEYS, Untitled, ToPascalCase, TitleOf;
    var child := v.fields[k];
    if k == "oneOf" || k == "anyOf" {
      if child.Arr? {
        VariantsUnchangedIff(child.items, base, Titles(child.items));
      }
    } else if k == "definitions" || k == "$defs" {
      if child.Obj? {
        DefinitionsUnchangedIff(child);
      }
    } else if k == "properties" && TitleOf(v).Some? {
      UnchangedIffSettled(child, base, TitleOf(v));
    } else if owner.Some? && k in DISCRIMINATOR_KEYS && Untitled(child) {
      UntitledChanges(child, base, DiscriminatorTitle(owner.value, k));
    } else {
      UnchangedIffSettled(child, base, None);
    }
  }

  lemma UntitledChanges(child: Json, base: string, title: string)
    requires Untitled(child)
    ensures Annotate(child, base, Some(title), None) != Some(child)
  {
    hide Annotate, AnnotateField;
    Opened(child, base, Some(title), None);
  }

  lemma {:induction false} DefinitionsUnchangedIff(d: Json)
    requires d.Obj?
    ensures AnnotateDefinitions(d) == Some(d) <==> forall name | name in d.fields :: Settled(d.fields[name], name, None)
    decreases d, 2
  {
    hide Annotate, Settled;
    forall name | name in d.fields
      ensures Annotate(d.fields[name], name, None, None) == Some(d.fields[name]) <==> Settled(d.fields[name], name, None)
    {
      UnchangedIffSettled(d.fields[name], name, None);
    }
    if forall name | name in d.fields :: Settled(d.fields[name], name, None) {
      assert forall name | name in d.fields :: Annotate(d.fields[name], name, None, None).Some?;
      var out := AnnotateDefinitions(d).value;
      assert out.fields.Keys == d.fields.Keys;
      assert forall name | name in d.fields :: out.fields[name] == d.fields[name];
      assert out.fields == d.fields;
    }
    if AnnotateDefinitions(d) == Some(d) {
      var out := AnnotateDefinitions(d).value;
      forall name | name in d.fields ensures Annotate(d.fields[name], name, None, None) == Some(d.fields[name]) {
        assert out.fields[name] == Annotate(d.fields[name], name, None, None).value;
      }
    }
  }

  lemma {:induction false} VariantUnchangedIff(v: Json, base: string, seen: set<string>)
    requires v.Obj?
    ensures var n := NameVariant(v, base, seen);
            (n != Collision && Annotate(v, base, if n.Rename? then Some(n.title) else None, None) == Some(v))
            <==> WellNamed(v, base) && Settled(v, base, None)
    decreases v, 2
  {
    hide Annotate, Settled, VariantName, TitleOf;
    UnchangedIffSettled(v, base, None);
    var n := NameVariant(v, base, seen);
    if n.Rename? {
      SameTitle(v, base, n.title);
    }
  }

  lemma {:induction false} VariantsUnchangedIff(variants: seq<Json>, base: string, seen: set<string>)
    ensures AnnotateVariants(variants, base, seen) == Some(variants) <==>
              forall i | 0 <= i < |variants| :: variants[i].Obj? ==> WellNamed(variants[i], base) && Settled(variants[i], base, None)
    decreases variants, 0
  {
    hide Annotate, Settled, WellNamed, NameVariant;
    if variants != [] {
      var v, rest := variants[0], variants[1..];
      assert variants == [v] + rest;
      assert forall i | 0 < i < |variants| :: variants[i] == rest[i - 1];
      var taken := seen;
      if v.Obj? {
        VariantUnchangedIff(v, base, seen);
        var n := NameVariant(v, base, seen);
        taken := if n.Rename? then seen + {n.title} else seen;
      }
      VariantsUnchangedIff(rest, base, taken);
      if AnnotateVariants(variants, base, seen) == Some(variants) {
        assert AnnotateVariants(rest, base, taken).value == variants[1..];
      }
      if forall i | 0 <= i < |variants| :: variants[i].Obj? ==> WellNamed(variants[i], base) && Settled(variants[i], base, None) {
        assert forall i | 0 <= i < |rest| :: rest[i] == variants[i + 1];
      }
    }
  }

  /** What the walk returns is settled. */
  lemma ResultSettled(v: Json, base: string)
    requires Annotate(v, base, None, None).Some?
    ensures Settled(Annotate(v, base, None, None).value, base, None)
  {
    hide Annotate, Settled;
    Idempotent(v, base, None, None);
    UnchangedIffSettled(Annotate(v, base, None, None).value, base, None);
  }
}
