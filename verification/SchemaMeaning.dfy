/** What title normalisation does to a schema: only titles change, and the titles of listed variants stay distinct. */
module SchemaMeaning {
  import opened Wrappers
  import opened SchemaTitles
  import opened SchemaSettled

  // ---- only titles change -----------------------------------------------------

  /** Same tree, except that dictionaries may have gained or replaced a string title. */
  predicate TitlesOnly(v: Json, w: Json)
    decreases v
  {
    match v
    case Arr(items) =>
      w.Arr? && |w.items| == |items| && forall i | 0 <= i < |items| :: TitlesOnly(items[i], w.items[i])
    case Obj(m) =>
      && w.Obj?
      && m.Keys <= w.fields.Keys && w.fields.Keys <= m.Keys + {"title"}
      && ("title" in w.fields ==> w.fields["title"].Str? || ("title" in m && TitlesOnly(m["title"], w.fields["title"])))
      && (forall k | k in m && k != "title" :: TitlesOnly(m[k], w.fields[k]))
    case _ => w == v
  }

  lemma {:induction false} Unchanged(v: Json)
    ensures TitlesOnly(v, v)
    decreases v
  {
    match v
    case Arr(items) =>
      forall i | 0 <= i < |items| ensures TitlesOnly(items[i], items[i]) { Unchanged(items[i]); }
    case Obj(m) =>
      forall k | k in m ensures TitlesOnly(m[k], m[k]) { Unchanged(m[k]); }
    case _ =>
  }

  /** Annotation changes nothing but titles, anywhere in the tree. */
  lemma {:induction false} AnnotateChangesTitlesOnly(v: Json, base: string, title: Option<string>, owner: Option<string>)
    requires Annotate(v, base, title, owner).Some?
    ensures TitlesOnly(v, Annotate(v, base, title, owner).value)
    decreases v, 2
  {
    hide AnnotateField;
    match v
    case Arr(items) =>
      ItemsAt(items, base);
      forall i | 0 <= i < |items| ensures TitlesOnly(items[i], AnnotateItems(items, base).value[i]) {
        AnnotateChangesTitlesOnly(items[i], base, None, None);
      }
    case Obj(m) =>
      var w := Annotate(v, base, title, owner).value;
      Opened(v, base, title, owner);
      forall k | k in m && (k == "title" ==> title.None?) ensures TitlesOnly(m[k], w.fields[k]) {
        FieldChangesTitlesOnly(v, k, base, title, owner);
      }
    case _ =>
  }

  lemma {:induction false} FieldChangesTitlesOnly(
    v: Json, k: string, base: string, title: Option<string>, owner: Option<string>)
    requires v.Obj? && k in v.fields && AnnotateField(v, k, base, title, owner).Some?
    requires k == "title" ==> title.None?
    ensures TitlesOnly(v.fields[k], AnnotateField(v, k, base, title, owner).value)
    decreases v, 1
  {
    hide Annotate, AnnotateVariants, TitlesOnly, DISCRIMINATOR_KEYS, Untitled, ToPascalCase;
    var child := v.fields[k];
    Unchanged(child);
    if k == "oneOf" || k == "anyOf" {
      if child.Arr? {
        VariantsChangeTitlesOnly(child.items, base, Titles(child.items));
        assert TitlesOnly(child, AnnotateField(v, k, base, title, owner).value) by {
          ListTitlesOnly(child.items, AnnotateVariants(child.items, base, Titles(child.items)).value);
        }
      }
    } else if k == "definitions" || k == "$defs" {
      if child.Obj? {
        var w := AnnotateDefinitions(child).value;
        forall name | name in child.fields ensures TitlesOnly(child.fields[name], w.fields[name]) {
          AnnotateChangesTitlesOnly(child.fields[name], name, None, None);
        }
        FieldsTitlesOnly(child, w);
      }
    } else if k == "properties" && OwnTitle(v.fields, title).Some? {
      AnnotateChangesTitlesOnly(child, base, None, OwnTitle(v.fields, title));
    } else if owner.Some? && k in DISCRIMINATOR_KEYS && Untitled(child) {
      AnnotateChangesTitlesOnly(child, base, Some(DiscriminatorTitle(owner.value, k)), None);
    } else {
      AnnotateChangesTitlesOnly(child, base, None, None);
    }
  }

  lemma ListTitlesOnly(items: seq<Json>, out: seq<Json>)
    requires |out| == |items| && forall i | 0 <= i < |items| :: TitlesOnly(items[i], out[i])
    ensures TitlesOnly(Arr(items), Arr(out))
  {}

  lemma FieldsTitlesOnly(v: Json, w: Json)
    requires v.Obj? && w.Obj? && v.fields.Keys == w.fields.Keys
    requires forall k | k in v.fields :: TitlesOnly(v.fields[k], w.fields[k])
    ensures TitlesOnly(v, w)
  {}

  lemma {:induction false} VariantsChangeTitlesOnly(variants: seq<Json>, base: string, seen: set<string>)
    requires AnnotateVariants(variants, base, seen).Some?
    ensures var out := AnnotateVariants(variants, base, seen).value;
            forall i | 0 <= i < |variants| :: TitlesOnly(variants[i], out[i])
    decreases variants, 0
  {
    hide Annotate, NameVariant, TitlesOnly;
    if variants != [] {
      var v, rest := variants[0], variants[1..];
      var out := AnnotateVariants(variants, base, seen).value;
      Unchanged(v);
      var taken := seen;
      if v.Obj? {
        var n := NameVariant(v, base, seen);
        AnnotateChangesTitlesOnly(v, base, if n.Rename? then Some(n.title) else None, None);
        taken := if n.Rename? then seen + {n.title} else seen;
      }
      VariantsChangeTitlesOnly(rest, base, taken);
      assert out[1..] == AnnotateVariants(rest, base, taken).value;
      forall i | 0 < i < |variants| ensures TitlesOnly(variants[i], out[i]) {
        assert variants[i] == rest[i - 1] && out[i] == out[1..][i - 1];
      }
    }
  }

  // ---- variant titles ---------------------------------------------------------

  /** No two listed variants share a title, looking only at the chosen positions. */
  predicate DistinctAmong(variants: seq<Json>, chosen: set<int>) {
    forall i, j | 0 <= i < j < |variants| && i in chosen && j in chosen ::
      TitleOf(variants[i]).None? || TitleOf(variants[i]) != TitleOf(variants[j])
  }

  predicate DistinctTitles(variants: seq<Json>) {
    forall i, j | 0 <= i < j < |variants| ::
      TitleOf(variants[i]).None? || TitleOf(variants[i]) != TitleOf(variants[j])
  }

  /** The variant bears the name it deserves, or deserves none. */
  predicate KeepsTitle(v: Json, base: string) {
    v.Obj? ==> WellNamed(v, base)
  }

  /** Positions whose title the walk will leave alone. */
  function Kept(variants: seq<Json>, base: string): set<int> {
    set i | 0 <= i < |variants| && KeepsTitle(variants[i], base)
  }

  lemma {:induction false} KeptTitles(variants: seq<Json>, base: string, seen: set<string>)
    requires AnnotateVariants(variants, base, seen).Some?
    ensures var out := AnnotateVariants(variants, base, seen).value;
            forall i | 0 <= i < |variants| :: TitleOf(out[i]) == TitleOf(variants[i]) <==> KeepsTitle(variants[i], base)
    decreases |variants|
  {
    hide Annotate, VariantName, TitleOf;
    if variants != [] {
      var v, rest := variants[0], variants[1..];
      var out := AnnotateVariants(variants, base, seen).value;
      var taken := seen;
      if v.Obj? {
        var n := NameVariant(v, base, seen);
        if n.Rename? {
          TitleSet(v, base, n.title);
          taken := seen + {n.title};
        } else {
          TitleKept(v, base);
        }
      }
      KeptTitles(rest, base, taken);
      assert out[1..] == AnnotateVariants(rest, base, taken).value;
      hide KeepsTitle, AnnotateVariants;
      forall i | 0 < i < |variants| ensures TitleOf(out[i]) == TitleOf(variants[i]) <==> KeepsTitle(variants[i], base) {
        assert variants[i] == rest[i - 1] && out[i] == out[1..][i - 1];
      }
    }
  }

  /** Every title is either kept or new: not taken before and not equal to any other. */
  lemma {:induction false} VariantTitles(variants: seq<Json>, base: string, seen: set<string>)
    requires AnnotateVariants(variants, base, seen).Some?
    ensures var out := AnnotateVariants(variants, base, seen).value;
            forall i | 0 <= i < |variants| && TitleOf(out[i]) != TitleOf(variants[i]) ::
              && TitleOf(out[i]).Some? && TitleOf(out[i]).value !in seen
              && (forall j | 0 <= j < i && TitleOf(out[j]) != TitleOf(variants[j]) :: TitleOf(out[j]) != TitleOf(out[i]))
    decreases |variants|
  {
    hide Annotate, VariantName, TitleOf;
    if variants != [] {
      var v, rest := variants[0], variants[1..];
      var out := AnnotateVariants(variants, base, seen).value;
      var taken := seen;
      if v.Obj? {
        var n := NameVariant(v, base, seen);
        if n.Rename? {
          TitleSet(v, base, n.title);
          taken := seen + {n.title};
        } else {
          TitleKept(v, base);
        }
      }
      VariantTitles(rest, base, taken);
      assert out[1..] == AnnotateVariants(rest, base, taken).value;
      forall i | 0 <= i < |variants| && TitleOf(out[i]) != TitleOf(variants[i])
        ensures TitleOf(out[i]).Some? && TitleOf(out[i]).value !in seen
        ensures forall j | 0 <= j < i && TitleOf(out[j]) != TitleOf(variants[j]) :: TitleOf(out[j]) != TitleOf(out[i])
      {
        if i > 0 {
          assert variants[i] == rest[i - 1] && out[i] == out[1..][i - 1];
          forall j | 0 <= j < i && TitleOf(out[j]) != TitleOf(variants[j]) ensures TitleOf(out[j]) != TitleOf(out[i]) {
            if j > 0 {
              assert variants[j] == rest[j - 1] && out[j] == out[1..][j - 1];
            }
          }
        }
      }
    }
  }

  /**
   * After a walk that does not raise, the titles of a variant list are pairwise distinct
   * exactly when those of the variants that already bear the name they deserve, or
   * deserve none, are; so distinct titles stay distinct.
   */
  lemma VariantTitlesDistinct(variants: seq<Json>, base: string)
    requires AnnotateVariants(variants, base, Titles(variants)).Some?
    ensures var out := AnnotateVariants(variants, base, Titles(variants)).value;
            && (DistinctTitles(out) <==> DistinctAmong(variants, Kept(variants, base)))
            && (DistinctTitles(variants) ==> DistinctTitles(out))
  {
    hide TitleOf, AnnotateVariants, KeepsTitle;
    var out := AnnotateVariants(variants, base, Titles(variants)).value;
    var kept := Kept(variants, base);
    VariantTitles(variants, base, Titles(variants));
    KeptTitles(variants, base, Titles(variants));
    forall i | 0 <= i < |variants| && TitleOf(variants[i]).Some?
      ensures TitleOf(variants[i]).value in Titles(variants)
    {
      assert variants[i] in variants;
    }
    if DistinctAmong(variants, kept) {
      forall i, j | 0 <= i < j < |out|
        ensures TitleOf(out[i]).None? || TitleOf(out[i]) != TitleOf(out[j])
      {
        var keptI, keptJ := i in kept, j in kept;
      }
    }
    if DistinctTitles(out) {
      forall i, j | 0 <= i < j < |variants| && i in kept && j in kept
        ensures TitleOf(variants[i]).None? || TitleOf(variants[i]) != TitleOf(variants[j])
      {
        assert TitleOf(out[i]) == TitleOf(variants[i]) && TitleOf(out[j]) == TitleOf(variants[j]);
      }
    }
  }

  datatype Stepped = Stepped(variant: Json, seen: set<string>)

  /** One turn of the loop over variants: the variant as it is left, and the titles then taken. */
  function StepVariant(v: Json, base: string, seen: set<string>): Option<Stepped> {
    if !v.Obj? then Some(Stepped(v, seen))
    else
      var naming := NameVariant(v, base, seen);
      if naming.Collision? then None
      else
        match Annotate(v, base, if naming.Rename? then Some(naming.title) else None, None)
        case None => None
        case Some(w) => Some(Stepped(w, if naming.Rename? then seen + {naming.title} else seen))
  }

  lemma VariantsStep(variants: seq<Json>, base: string, seen: set<string>)
    requires variants != []
    ensures AnnotateVariants(variants, base, seen)
         == match StepVariant(variants[0], base, seen)
            case None => None
            case Some(first) =>
              var rest := AnnotateVariants(variants[1..], base, first.seen);
              if rest.None? then None else Some([first.variant] + rest.value)
  {
    hide Annotate, NameVariant;
  }

  lemma NoVariants(base: string, seen: set<string>)
    ensures AnnotateVariants([], base, seen) == Some([])
  {
  }

  /** The loop of `_annotate_variant_list`, writing each variant back where it was. */
  method AnnotateVariantList(variants: array<Json>, base: string) returns (raised: bool)
    modifies variants
    ensures raised <==> AnnotateVariants(old(variants[..]), base, Titles(old(variants[..]))).None?
    ensures !raised ==> Some(variants[..]) == AnnotateVariants(old(variants[..]), base, Titles(old(variants[..])))
  {
    hide Annotate, NameVariant, Titles, AnnotateVariants;
    ghost var before := variants[..];
    var seen := Titles(variants[..]);
    ghost var all := AnnotateVariants(before, base, seen);
    var k := 0;
    assert before[0..] == before && variants[..0] == [];
    while k < variants.Length
      invariant 0 <= k <= variants.Length
      invariant variants[k..] == before[k..]
      invariant var rest := AnnotateVariants(before[k..], base, seen);
                (all.Some? <==> rest.Some?) && (all.Some? ==> all.value == variants[..k] + rest.value)
    {
      var variant := variants[k];
      assert before[k..][0] == variant && before[k..][1..] == before[k + 1..];
      VariantsStep(before[k..], base, seen);
      ghost var done := variants[..k];
      var after := variant;
      if variant.Obj? {
        var naming := NameVariant(variant, base, seen);
        if naming.Collision? {
          return true;
        }
        var annotated := Annotate(variant, base, if naming.Rename? then Some(naming.title) else None, None);
        if annotated.None? {
          return true;
        }
        if naming.Rename? {
          seen := seen + {naming.title};
        }
        after := annotated.value;
      }
      variants[k] := after;
      assert variants[..k + 1] == done + [after];
      assert variants[k + 1..] == before[k + 1..];
      ghost var rest := AnnotateVariants(before[k + 1..], base, seen);
      assert rest.Some? ==> done + ([after] + rest.value) == done + [after] + rest.value;
      k := k + 1;
    }
    assert variants[..k] == variants[..] && before[k..] == [];
    NoVariants(base, seen);
    assert variants[..] + [] == variants[..];
    raised := false;
  }
}
