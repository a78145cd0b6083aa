/**
 * Title normalisation of a JSON schema bundle before Python code generation:
 * `_annotate_schema`, `_annotate_variant_list`, `_set_discriminator_titles` and the
 * naming rules behind them.
 *
 * The script walks a tree of dictionaries and writes titles as it goes down. Here a
 * title that the caller has just written to a node is passed along as `title`, and the
 * owner for which discriminator titles have just been written to a `properties`
 * dictionary as `owner`; `PendingTitle` and `PendingOwner` show that this is the same
 * as walking the tree with those titles already written.
 */
module SchemaTitles {
  import opened Wrappers

  datatype Json =
    | Null
    | Bool(b: bool)
    | Int(n: int)
    | Str(s: string)
    | Arr(items: seq<Json>)
    | Obj(fields: map<string, Json>)

  type Fields = map<string, Json>

  const DISCRIMINATOR_KEYS := ["type", "method", "mode", "state", "status", "role", "reason"]

  // ---- names ------------------------------------------------------------------

  predicate IsAlphanumeric(c: char) {
    '0' <= c <= '9' || 'A' <= c <= 'Z' || 'a' <= c <= 'z'
  }

  function Upper(c: char): char {
    if 'a' <= c <= 'z' then (c as int - 'a' as int + 'A' as int) as char else c
  }

  /** Letters and digits only; every run of other characters starts a new capital. */
  function Capitalised(s: string, start: bool): string {
    if s == "" then ""
    else if !IsAlphanumeric(s[0]) then Capitalised(s[1..], true)
    else [if start then Upper(s[0]) else s[0]] + Capitalised(s[1..], false)
  }

  function ToPascalCase(s: string): string {
    var compact := Capitalised(s, true);
    if compact == "" then "Value" else compact
  }

  function Get(m: Fields, key: string): Json {
    if key in m then m[key] else Null
  }

  function StringLiteral(v: Json): Option<string> {
    if !v.Obj? then None
    else
      var const_, enum_ := Get(v.fields, "const"), Get(v.fields, "enum");
      if const_.Str? then Some(const_.s)
      else if enum_.Arr? && |enum_.items| == 1 && enum_.items[0].Str? then Some(enum_.items[0].s)
      else None
  }

  predicate AllStrings(items: seq<Json>) {
    forall i | 0 <= i < |items| :: items[i].Str?
  }

  function EnumLiterals(m: Fields): Option<seq<Json>> {
    var enum_ := Get(m, "enum");
    if enum_.Arr? && enum_.items != [] && AllStrings(enum_.items) then Some(enum_.items) else None
  }

  /** The literal of the first discriminator that has one. */
  function DiscriminatorLiteral(props: Fields, keys: seq<string>): Option<string> {
    if keys == [] then None
    else
      var literal := StringLiteral(Get(props, keys[0]));
      if literal.Some? then literal else DiscriminatorLiteral(props, keys[1..])
  }

  /** Requests from the client drop the word Client; every other base is the suffix itself. */
  function Suffix(base: string): string {
    if base == "ClientRequest" then "Request" else base
  }

  lemma SingletonKey(m: Fields, a: string, b: string)
    requires |m| == 1 && a in m && b in m
    ensures a == b
  {
    var rest := m.Keys - {a};
    assert |m.Keys| == |rest| + 1;
    assert |rest| == 0;
    assert b !in rest;
  }

  function OnlyKey(m: Fields): (k: string)
    requires |m| == 1
    ensures k in m
  {
    assert m.Keys != {} by { assert |m.Keys| == 1; }
    assert forall a, b | a in m && b in m :: a == b by {
      forall a, b | a in m && b in m ensures a == b { SingletonKey(m, a, b); }
    }
    var k :| k in m;
    k
  }

  /** A name from the discriminator, or from the only property. */
  function PropertiesName(base: string, props: Json): Option<string> {
    if !props.Obj? then None
    else
      var literal := DiscriminatorLiteral(props.fields, DISCRIMINATOR_KEYS);
      if literal.Some? then Some(ToPascalCase(literal.value) + Suffix(base))
      else if |props.fields| == 1 then
        var key := OnlyKey(props.fields);
        var only := StringLiteral(props.fields[key]);
        Some(ToPascalCase(if only.Some? && only.value != "" then only.value else key) + base)
      else None
  }

  /** A name from the only required property. */
  function RequiredName(base: string, required: Json): Option<string> {
    if required.Arr? && |required.items| == 1 && required.items[0].Str?
    then Some(ToPascalCase(required.items[0].s) + base) else None
  }

  /** A name from the enumerated strings. */
  function EnumName(base: string, enums: Option<seq<Json>>): Option<string> {
    if enums.None? then None
    else if |enums.value| == 1 && enums.value[0].Str? then Some(ToPascalCase(enums.value[0].s) + base)
    else Some(base + "Value")
  }

  /** `_variant_definition_name`. */
  function VariantName(base: string, m: Fields): Option<string> {
    PropertiesName(base, Get(m, "properties"))
      .Or(RequiredName(base, Get(m, "required")))
      .Or(EnumName(base, EnumLiterals(m)))
  }

  // ---- titles -----------------------------------------------------------------

  function TitleOf(v: Json): Option<string> {
    if v.Obj? && "title" in v.fields && v.fields["title"].Str? then Some(v.fields["title"].s) else None
  }

  function SetTitle(v: Json, title: string): Json
    requires v.Obj?
  {
    Obj(v.fields["title" := Str(title)])
  }

  /** A property that `_set_discriminator_titles` titles. */
  predicate Untitled(prop: Json) {
    prop.Obj? && StringLiteral(prop).Some? && "title" !in prop.fields
  }

  function DiscriminatorTitle(owner: string, key: string): string {
    owner + ToPascalCase(key)
  }

  function SetDiscriminatorTitles(props: Json, owner: string): Json
    requires props.Obj?
  {
    Obj(map k | k in props.fields ::
          if k in DISCRIMINATOR_KEYS && Untitled(props.fields[k])
          then SetTitle(props.fields[k], DiscriminatorTitle(owner, k)) else props.fields[k])
  }

  function Titles(variants: seq<Json>): set<string> {
    set v | v in variants && TitleOf(v).Some? :: TitleOf(v).value
  }

  datatype Naming = Keep | Rename(title: string) | Collision

  /** What becomes of a variant's title, given the titles already taken. */
  function NameVariant(v: Json, base: string, seen: set<string>): Naming
    requires v.Obj?
  {
    var title, generated := TitleOf(v), if base == "" then None else VariantName(base, v.fields);
    if generated.None? then Keep
    else if title == generated && '/' !in title.value then Keep
    else if generated.value in seen && title != generated then Collision
    else Rename(generated.value)
  }

  /** The title a node has once a pending one is written. */
  function OwnTitle(m: Fields, title: Option<string>): Option<string> {
    if title.Some? then title else TitleOf(Obj(m))
  }

  // ---- the walk ---------------------------------------------------------------

  /** `_annotate_schema`; nothing when a naming collision raises. */
  function Annotate(v: Json, base: string, title: Option<string>, owner: Option<string>): Option<Json>
    decreases v, 2
  {
    match v
    case Arr(items) => var out :- AnnotateItems(items, base); Some(Arr(out))
    case Obj(m) =>
      if forall k | k in m :: AnnotateField(v, k, base, title, owner).Some? then
        var fields := map k | k in m :: AnnotateField(v, k, base, title, owner).value;
        Some(Obj(if title.Some? then fields["title" := Str(title.value)] else fields))
      else None
    case _ => Some(v)
  }

  function AnnotateItems(items: seq<Json>, base: string): (r: Option<seq<Json>>)
    ensures r.Some? ==> |r.value| == |items|
    decreases items, 0
  {
    if items == [] then Some([])
    else
      var first :- Annotate(items[0], base, None, None);
      var rest :- AnnotateItems(items[1..], base);
      Some([first] + rest)
  }

  function AnnotateField(v: Json, k: string, base: string, title: Option<string>, owner: Option<string>): Option<Json>
    requires v.Obj? && k in v.fields
    decreases v, 1
  {
    var child := v.fields[k];
    if k == "title" && title.Some? then Some(Str(title.value))
    else if k == "oneOf" || k == "anyOf" then
      if child.Arr? then var out :- AnnotateVariants(child.items, base, Titles(child.items)); Some(Arr(out))
      else Some(child)
    else if k == "definitions" || k == "$defs" then
      if child.Obj? then AnnotateDefinitions(child) else Some(child)
    else if k == "properties" && OwnTitle(v.fields, title).Some? then
      Annotate(child, base, None, OwnTitle(v.fields, title))
    else if owner.Some? && k in DISCRIMINATOR_KEYS && Untitled(child) then
      Annotate(child, base, Some(DiscriminatorTitle(owner.value, k)), None)
    else Annotate(child, base, None, None)
  }

  function AnnotateDefinitions(d: Json): Option<Json>
    requires d.Obj?
    decreases d, 3
  {
    if forall name | name in d.fields :: Annotate(d.fields[name], name, None, None).Some?
    then Some(Obj(map name | name in d.fields :: Annotate(d.fields[name], name, None, None).value))
    else None
  }

  /** `_annotate_variant_list`, where `seen` holds the titles taken so far. */
  function AnnotateVariants(variants: seq<Json>, base: string, seen: set<string>): (r: Option<seq<Json>>)
    ensures r.Some? ==> |r.value| == |variants|
    decreases variants, 0
  {
    if variants == [] then Some([])
    else if !variants[0].Obj? then
      var rest :- AnnotateVariants(variants[1..], base, seen);
      Some([variants[0]] + rest)
    else
      match NameVariant(variants[0], base, seen)
      case Collision => None
      case Keep =>
        var first :- Annotate(variants[0], base, None, None);
        var rest :- AnnotateVariants(variants[1..], base, seen);
        Some([first] + rest)
      case Rename(title) =>
        var first :- Annotate(variants[0], base, Some(title), None);
        var rest :- AnnotateVariants(variants[1..], base, seen + {title});
        Some([first] + rest)
  }

  // ---- opening and closing an annotated dictionary ----------------------------

  function Written(title: Option<string>): set<string> {
    if title.Some? then {"title"} else {}
  }

  /** The dictionary that annotating `v` gives, field by field. */
  predicate Result(v: Json, base: string, title: Option<string>, owner: Option<string>, w: Json)
    requires v.Obj?
  {
    && w.Obj? && w.fields.Keys == v.fields.Keys + Written(title)
    && (title.Some? ==> w.fields["title"] == Str(title.value))
    && (forall k | k in v.fields :: AnnotateField(v, k, base, title, owner) == Some(w.fields[k]))
  }

  lemma Opened(v: Json, base: string, title: Option<string>, owner: Option<string>)
    requires v.Obj?
    ensures var w := Annotate(v, base, title, owner);
            && (w.Some? ==> Result(v, base, title, owner, w.value))
            && (w.None? ==> exists k | k in v.fields :: AnnotateField(v, k, base, title, owner).None?)
  {
    hide AnnotateField;
    var w := Annotate(v, base, title, owner);
    if w.Some? && title.Some? && "title" in v.fields {
      TitleField(v, base, title, owner);
    }
  }

  lemma TitleField(v: Json, base: string, title: Option<string>, owner: Option<string>)
    requires v.Obj? && "title" in v.fields && title.Some?
    ensures AnnotateField(v, "title", base, title, owner) == Some(Str(title.value))
  {}

  lemma Closed(v: Json, base: string, title: Option<string>, owner: Option<string>, w: Json)
    requires v.Obj? && Result(v, base, title, owner, w)
    ensures Annotate(v, base, title, owner) == Some(w)
  {
    hide AnnotateField;
    var out := Annotate(v, base, title, owner).value;
    assert out.fields.Keys == w.fields.Keys;
    forall k | k in w.fields ensures out.fields[k] == w.fields[k] {}
    assert out.fields == w.fields;
  }

  lemma FieldFails(v: Json, k: string, base: string, title: Option<string>, owner: Option<string>)
    requires v.Obj? && k in v.fields && AnnotateField(v, k, base, title, owner).None?
    ensures Annotate(v, base, title, owner).None?
  {
    hide AnnotateField;
  }

  // ---- pending titles are written titles --------------------------------------

  lemma PendingTitleField(v: Json, k: string, base: string, title: string, owner: Option<string>)
    requires v.Obj? && k in v.fields
    ensures AnnotateField(v, k, base, Some(title), owner) == AnnotateField(SetTitle(v, title), k, base, None, owner)
  {
    hide DISCRIMINATOR_KEYS, AnnotateVariants, AnnotateDefinitions, Untitled;
    assert "title" !in DISCRIMINATOR_KEYS by { TitleIsNoDiscriminator(); }
  }

  lemma TitleIsNoDiscriminator()
    ensures "title" !in DISCRIMINATOR_KEYS && "properties" !in DISCRIMINATOR_KEYS
    ensures "oneOf" !in DISCRIMINATOR_KEYS && "anyOf" !in DISCRIMINATOR_KEYS
    ensures "definitions" !in DISCRIMINATOR_KEYS && "$defs" !in DISCRIMINATOR_KEYS
  {}

  lemma PendingTitle(v: Json, base: string, title: string, owner: Option<string>)
    requires v.Obj?
    ensures Annotate(v, base, Some(title), owner) == Annotate(SetTitle(v, title), base, None, owner)
  {
    hide Annotate, AnnotateField;
    var v' := SetTitle(v, title);
    forall k | k in v.fields
      ensures AnnotateField(v, k, base, Some(title), owner) == AnnotateField(v', k, base, None, owner)
    {
      PendingTitleField(v, k, base, title, owner);
    }
    assert AnnotateField(v', "title", base, None, owner) == Some(Str(title)) by {
      TitleIsNoDiscriminator();
      WrittenTitleField(v', base, title, owner);
    }
    Opened(v, base, Some(title), owner);
    var w := Annotate(v, base, Some(title), owner);
    if w.Some? {
      Closed(v', base, None, owner, w.value);
    } else {
      var k :| k in v.fields && AnnotateField(v, k, base, Some(title), owner).None?;
      FieldFails(v', k, base, None, owner);
    }
  }

  lemma WrittenTitleField(v: Json, base: string, title: string, owner: Option<string>)
    requires v.Obj? && "title" in v.fields && v.fields["title"] == Str(title) && "title" !in DISCRIMINATOR_KEYS
    ensures AnnotateField(v, "title", base, None, owner) == Some(Str(title))
  {
    hide DISCRIMINATOR_KEYS;
  }

  lemma PendingOwnerField(v: Json, k: string, base: string, owner: string)
    requires v.Obj? && k in v.fields
    ensures AnnotateField(v, k, base, None, Some(owner))
         == AnnotateField(SetDiscriminatorTitles(v, owner), k, base, None, None)
  {
    hide DISCRIMINATOR_KEYS, AnnotateVariants, AnnotateDefinitions, Untitled, ToPascalCase;
    TitleIsNoDiscriminator();
    var v' := SetDiscriminatorTitles(v, owner);
    assert OwnTitle(v'.fields, None) == OwnTitle(v.fields, None);
    if k in DISCRIMINATOR_KEYS && Untitled(v.fields[k]) {
      assert v.fields[k].Obj? by { UntitledIsObj(v.fields[k]); }
      PendingTitle(v.fields[k], base, DiscriminatorTitle(owner, k), None);
    }
  }

  lemma UntitledIsObj(v: Json)
    ensures Untitled(v) ==> v.Obj?
  {}

  lemma PendingOwner(v: Json, base: string, owner: string)
    requires v.Obj?
    ensures Annotate(v, base, None, Some(owner)) == Annotate(SetDiscriminatorTitles(v, owner), base, None, None)
  {
    hide Annotate, AnnotateField, Untitled, DISCRIMINATOR_KEYS;
    var v' := SetDiscriminatorTitles(v, owner);
    forall k | k in v.fields
      ensures AnnotateField(v, k, base, None, Some(owner)) == AnnotateField(v', k, base, None, None)
    {
      PendingOwnerField(v, k, base, owner);
    }
    Opened(v, base, None, Some(owner));
    var w := Annotate(v, base, None, Some(owner));
    if w.Some? {
      Closed(v', base, None, None, w.value);
    } else {
      var k :| k in v.fields && AnnotateField(v, k, base, None, Some(owner)).None?;
      FieldFails(v', k, base, None, None);
    }
  }

  // ---- what annotation keeps --------------------------------------------------

  lemma {:induction false} ItemsAt(items: seq<Json>, base: string)
    requires AnnotateItems(items, base).Some?
    ensures var out := AnnotateItems(items, base).value;
            forall i | 0 <= i < |items| :: Annotate(items[i], base, None, None) == Some(out[i])
    decreases |items|
  {
    hide Annotate;
    if items != [] {
      ItemsAt(items[1..], base);
      var out := AnnotateItems(items, base).value;
      assert out[1..] == AnnotateItems(items[1..], base).value;
      forall i | 0 < i < |items| ensures Annotate(items[i], base, None, None) == Some(out[i]) {
        assert items[i] == items[1..][i - 1] && out[i] == out[1..][i - 1];
      }
    }
  }

  predicate SameKind(v: Json, w: Json) {
    && v.Obj? == w.Obj? && v.Arr? == w.Arr?
    && (v.Arr? ==> |v.items| == |w.items|)
    && (!v.Obj? && !v.Arr? ==> v == w)
  }

  lemma KindKept(v: Json, base: string, title: Option<string>, owner: Option<string>)
    requires Annotate(v, base, title, owner).Some?
    ensures SameKind(v, Annotate(v, base, title, owner).value)
  {
    hide AnnotateField;
  }

  /** Fields keep their kind, unless it is the title being written. */
  lemma FieldKindKept(v: Json, k: string, base: string, title: Option<string>, owner: Option<string>)
    requires v.Obj? && k in v.fields && AnnotateField(v, k, base, title, owner).Some?
    requires k == "title" ==> title.None?
    ensures SameKind(v.fields[k], AnnotateField(v, k, base, title, owner).value)
  {
    hide Annotate, DISCRIMINATOR_KEYS, Untitled, AnnotateVariants;
    var child := v.fields[k];
    if Annotate(child, base, None, None).Some? { KindKept(child, base, None, None); }
    if Annotate(child, base, None, OwnTitle(v.fields, title)).Some? { KindKept(child, base, None, OwnTitle(v.fields, title)); }
    if owner.Some? {
      var t := Some(DiscriminatorTitle(owner.value, k));
      if Annotate(child, base, t, None).Some? { KindKept(child, base, t, None); }
    }
  }

  /** A plain keyword's value is annotated like any schema. */
  lemma PlainField(v: Json, k: string, base: string, title: Option<string>, owner: Option<string>)
    requires v.Obj? && k in v.fields && k in ["const", "enum", "required"]
    ensures AnnotateField(v, k, base, title, owner) == Annotate(v.fields[k], base, None, None)
  {
    hide Annotate, Untitled, AnnotateVariants, AnnotateDefinitions, OwnTitle, DISCRIMINATOR_KEYS;
    PlainIsNoDiscriminator(k);
  }

  lemma PlainIsNoDiscriminator(k: string)
    requires k in ["const", "enum", "required"]
    ensures k !in DISCRIMINATOR_KEYS
  {
  }

  lemma ArrayKept(v: Json, base: string, i: nat)
    requires v.Arr? && Annotate(v, base, None, None).Some? && i < |v.items|
    ensures var w := Annotate(v, base, None, None).value;
            w.Arr? && |w.items| == |v.items| && SameKind(v.items[i], w.items[i])
  {
    hide AnnotateField;
    ItemsAt(v.items, base);
    KindKept(v.items[i], base, None, None);
  }

  lemma LiteralKept(v: Json, base: string, title: Option<string>, owner: Option<string>)
    requires Annotate(v, base, title, owner).Some?
    ensures StringLiteral(Annotate(v, base, title, owner).value) == StringLiteral(v)
  {
    hide Annotate, AnnotateField, DISCRIMINATOR_KEYS;
    KindKept(v, base, title, owner);
    if v.Obj? {
      var w := Annotate(v, base, title, owner).value;
      Opened(v, base, title, owner);
      FieldsLiteralKept(v, w, base, title, owner);
    }
  }

  lemma FieldsLiteralKept(v: Json, w: Json, base: string, title: Option<string>, owner: Option<string>)
    requires v.Obj? && Result(v, base, title, owner, w)
    ensures StringLiteral(w) == StringLiteral(v)
  {
    hide Annotate, AnnotateField;
    if "const" in v.fields {
      PlainField(v, "const", base, title, owner);
      KindKept(v.fields["const"], base, None, None);
    }
    if "enum" in v.fields {
      PlainField(v, "enum", base, title, owner);
      KindKept(v.fields["enum"], base, None, None);
      if v.fields["enum"].Arr? && |v.fields["enum"].items| == 1 {
        ArrayKept(v.fields["enum"], base, 0);
      }
    }
  }

  lemma DefinitionsLiteralKept(d: Json)
    requires d.Obj? && AnnotateDefinitions(d).Some?
    ensures StringLiteral(AnnotateDefinitions(d).value) == StringLiteral(d)
  {
    hide Annotate;
    var w := AnnotateDefinitions(d).value;
    if "const" in d.fields {
      KindKept(d.fields["const"], "const", None, None);
    }
    if "enum" in d.fields {
      KindKept(d.fields["enum"], "enum", None, None);
      if d.fields["enum"].Arr? && |d.fields["enum"].items| == 1 {
        ArrayKept(d.fields["enum"], "enum", 0);
      }
    }
  }

  /** The literal of a property survives, wherever the walk meets it. */
  lemma FieldLiteralKept(v: Json, k: string, base: string, owner: Option<string>)
    requires v.Obj? && k in v.fields && AnnotateField(v, k, base, None, owner).Some?
    ensures StringLiteral(AnnotateField(v, k, base, None, owner).value) == StringLiteral(v.fields[k])
  {
    hide Annotate, DISCRIMINATOR_KEYS, Untitled, AnnotateVariants, AnnotateDefinitions, StringLiteral;
    var child := v.fields[k];
    if Annotate(child, base, None, None).Some? { LiteralKept(child, base, None, None); }
    if Annotate(child, base, None, OwnTitle(v.fields, None)).Some? { LiteralKept(child, base, None, OwnTitle(v.fields, None)); }
    if owner.Some? {
      var t := Some(DiscriminatorTitle(owner.value, k));
      if Annotate(child, base, t, None).Some? { LiteralKept(child, base, t, None); }
    }
    if child.Obj? && AnnotateDefinitions(child).Some? { DefinitionsLiteralKept(child); }
    forall items ensures StringLiteral(Arr(items)).None? { ListsHaveNoLiteral(items); }
  }

  lemma ListsHaveNoLiteral(items: seq<Json>)
    ensures StringLiteral(Arr(items)).None?
  {}

  lemma {:induction false} DiscriminatorsKept(p: Json, q: Json, base: string, owner: Option<string>, keys: seq<string>)
    requires p.Obj? && Result(p, base, None, owner, q)
    ensures DiscriminatorLiteral(q.fields, keys) == DiscriminatorLiteral(p.fields, keys)
  {
    hide AnnotateField, StringLiteral;
    if keys != [] {
      if keys[0] in p.fields { FieldLiteralKept(p, keys[0], base, owner); }
      DiscriminatorsKept(p, q, base, owner, keys[1..]);
    }
  }

  lemma OnlyKeyKept(p: Json, q: Json)
    requires p.Obj? && q.Obj? && p.fields.Keys == q.fields.Keys
    ensures |p.fields| == |q.fields|
    ensures |p.fields| == 1 ==> OnlyKey(p.fields) == OnlyKey(q.fields)
  {
    assert |p.fields| == |p.fields.Keys| && |q.fields| == |q.fields.Keys|;
    if |p.fields| == 1 {
      SingletonKey(p.fields, OnlyKey(p.fields), OnlyKey(q.fields));
    }
  }

  lemma PropertiesField(v: Json, base: string, title: Option<string>, owner: Option<string>)
    requires v.Obj? && "properties" in v.fields
    ensures AnnotateField(v, "properties", base, title, owner)
         == Annotate(v.fields["properties"], base, None, OwnTitle(v.fields, title))
  {
    hide Annotate, Untitled, OwnTitle, DISCRIMINATOR_KEYS;
    TitleIsNoDiscriminator();
    assert OwnTitle(v.fields, title).None? ==> OwnTitle(v.fields, title) == None;
  }

  lemma EnumsKept(v: Json, w: Json, base: string, title: Option<string>, owner: Option<string>)
    requires v.Obj? && Result(v, base, title, owner, w)
    ensures EnumLiterals(w.fields) == EnumLiterals(v.fields)
  {
    hide Annotate, AnnotateField;
    if "enum" in v.fields {
      PlainField(v, "enum", base, title, owner);
      var e, f := v.fields["enum"], w.fields["enum"];
      KindKept(e, base, None, None);
      if e.Arr? {
        forall i | 0 <= i < |e.items| ensures SameKind(e.items[i], f.items[i]) {
          ArrayKept(e, base, i);
        }
        if AllStrings(e.items) {
          assert e.items == f.items;
        }
      }
    }
  }

  lemma PropertiesNameKept(p: Json, name: string, base: string, owner: Option<string>)
    requires Annotate(p, base, None, owner).Some?
    ensures PropertiesName(name, Annotate(p, base, None, owner).value) == PropertiesName(name, p)
  {
    hide Annotate, AnnotateField, StringLiteral, DISCRIMINATOR_KEYS, ToPascalCase, OnlyKey, DiscriminatorLiteral, Suffix;
    KindKept(p, base, None, owner);
    if p.Obj? {
      var q := Annotate(p, base, None, owner).value;
      Opened(p, base, None, owner);
      assert p.fields.Keys + Written(None) == p.fields.Keys;
      DiscriminatorsKept(p, q, base, owner, DISCRIMINATOR_KEYS);
      OnlyKeyKept(p, q);
      if |p.fields| == 1 {
        FieldLiteralKept(p, OnlyKey(p.fields), base, owner);
      }
    }
  }

  lemma RequiredNameKept(r: Json, name: string, base: string)
    requires Annotate(r, base, None, None).Some?
    ensures RequiredName(name, Annotate(r, base, None, None).value) == RequiredName(name, r)
  {
    hide Annotate, ToPascalCase;
    KindKept(r, base, None, None);
    if r.Arr? && |r.items| == 1 {
      ArrayKept(r, base, 0);
    }
  }

  /** Annotation never changes the name a variant deserves. */
  lemma NameKept(v: Json, w: Json, base: string, title: Option<string>, owner: Option<string>)
    requires v.Obj? && Result(v, base, title, owner, w)
    ensures VariantName(base, w.fields) == VariantName(base, v.fields)
  {
    hide Annotate, AnnotateField, EnumLiterals, PropertiesName, RequiredName, EnumName, OwnTitle;
    EnumsKept(v, w, base, title, owner);
    if "required" in v.fields {
      PlainField(v, "required", base, title, owner);
      RequiredNameKept(v.fields["required"], base, base);
    }
    if "properties" in v.fields {
      PropertiesField(v, base, title, owner);
      PropertiesNameKept(v.fields["properties"], base, base, OwnTitle(v.fields, title));
    }
  }

  lemma OwnTitleKept(v: Json, w: Json, base: string, title: Option<string>, owner: Option<string>)
    requires v.Obj? && Result(v, base, title, owner, w)
    ensures OwnTitle(w.fields, None) == OwnTitle(v.fields, title)
  {
    hide AnnotateField;
    if "title" in v.fields && title.None? {
      FieldKindKept(v, "title", base, title, owner);
    }
  }

  lemma UntitledKept(v: Json, base: string)
    requires Annotate(v, base, None, None).Some?
    ensures Untitled(Annotate(v, base, None, None).value) == Untitled(v)
  {
    hide Annotate, AnnotateField, StringLiteral;
    KindKept(v, base, None, None);
    LiteralKept(v, base, None, None);
    if v.Obj? {
      Opened(v, base, None, None);
      assert v.fields.Keys + Written(None) == v.fields.Keys;
    }
  }

  lemma TitledNow(v: Json, base: string, title: string)
    requires v.Obj? && Annotate(v, base, Some(title), None).Some?
    ensures !Untitled(Annotate(v, base, Some(title), None).value)
  {
    hide Annotate, AnnotateField;
    Opened(v, base, Some(title), None);
  }

  // ---- idempotence ------------------------------------------------------------

  /** Annotating an annotated value again, with or without its owner, changes nothing. */
  lemma {:induction false} Idempotent(v: Json, base: string, title: Option<string>, owner: Option<string>)
    requires Annotate(v, base, title, owner).Some?
    ensures var w := Annotate(v, base, title, owner).value;
            Annotate(w, base, None, None) == Some(w) && Annotate(w, base, None, owner) == Some(w)
    decreases v, 2
  {
    hide AnnotateField;
    match v
    case Arr(items) => ItemsIdempotent(items, base);
    case Obj(m) =>
      var w := Annotate(v, base, title, owner).value;
      Opened(v, base, title, owner);
      forall k | k in w.fields
        ensures AnnotateField(w, k, base, None, None) == Some(w.fields[k])
        ensures AnnotateField(w, k, base, None, owner) == Some(w.fields[k])
      {
        FieldIdempotent(v, w, k, base, title, owner, None);
        FieldIdempotent(v, w, k, base, title, owner, owner);
      }
      assert w.fields.Keys + Written(None) == w.fields.Keys;
      Closed(w, base, None, None, w);
      Closed(w, base, None, owner, w);
    case _ =>
  }

  lemma {:induction false} ItemsIdempotent(items: seq<Json>, base: string)
    requires AnnotateItems(items, base).Some?
    ensures var out := AnnotateItems(items, base).value; AnnotateItems(out, base) == Some(out)
    decreases items, 0
  {
    hide Annotate;
    if items != [] {
      Idempotent(items[0], base, None, None);
      ItemsIdempotent(items[1..], base);
      var out := AnnotateItems(items, base).value;
      assert out[1..] == AnnotateItems(items[1..], base).value;
    }
  }

  lemma {:induction false} FieldIdempotent(
    v: Json, w: Json, k: string, base: string, title: Option<string>, owner: Option<string>, owner': Option<string>)
    requires v.Obj? && Result(v, base, title, owner, w) && k in w.fields
    requires owner' == None || owner' == owner
    ensures AnnotateField(w, k, base, None, owner') == Some(w.fields[k])
    decreases v, 1
  {
    hide Annotate, AnnotateVariants, AnnotateDefinitions, Untitled, DISCRIMINATOR_KEYS, ToPascalCase, OwnTitle;
    TitleIsNoDiscriminator();
    if k == "title" && title.Some? {
      WrittenTitleField(w, base, title.value, owner');
    } else {
      var child := v.fields[k];
      assert AnnotateField(v, k, base, title, owner) == Some(w.fields[k]);
      if k == "oneOf" || k == "anyOf" {
        if child.Arr? {
          var out := AnnotateVariants(child.items, base, Titles(child.items)).value;
          VariantsIdempotent(child.items, base, Titles(child.items), Titles(out));
        }
      } else if k == "definitions" || k == "$defs" {
        if child.Obj? {
          DefinitionsIdempotent(child);
          assert w.fields[k].Obj? by { DefinitionsAreObjects(child); }
        }
      } else if k == "properties" {
        OwnTitleKept(v, w, base, title, owner);
        PropertiesField(v, base, title, owner);
        PropertiesField(w, base, None, owner');
        Idempotent(child, base, None, OwnTitle(v.fields, title));
      } else if owner.Some? && k in DISCRIMINATOR_KEYS && Untitled(child) {
        UntitledIsObj(child);
        var t := DiscriminatorTitle(owner.value, k);
        Idempotent(child, base, Some(t), None);
        TitledNow(child, base, t);
      } else {
        Idempotent(child, base, None, None);
        UntitledKept(child, base);
      }
    }
  }

  lemma DefinitionsAreObjects(d: Json)
    requires d.Obj? && AnnotateDefinitions(d).Some?
    ensures AnnotateDefinitions(d).value.Obj?
  {}

  lemma {:induction false} DefinitionsIdempotent(d: Json)
    requires d.Obj? && AnnotateDefinitions(d).Some?
    ensures var w := AnnotateDefinitions(d).value; w.Obj? && AnnotateDefinitions(w) == Some(w)
    decreases d, 3
  {
    hide Annotate;
    var w := AnnotateDefinitions(d).value;
    forall name | name in d.fields ensures Annotate(w.fields[name], name, None, None) == Some(w.fields[name]) {
      Idempotent(d.fields[name], name, None, None);
    }
    assert AnnotateDefinitions(w).value.fields == w.fields;
  }

  lemma TitleKept(v: Json, base: string)
    requires v.Obj? && Annotate(v, base, None, None).Some?
    ensures var w := Annotate(v, base, None, None).value; w.Obj? && TitleOf(w) == TitleOf(v)
  {
    hide Annotate, AnnotateField;
    Opened(v, base, None, None);
    OwnTitleKept(v, Annotate(v, base, None, None).value, base, None, None);
  }

  lemma TitleSet(v: Json, base: string, title: string)
    requires v.Obj? && Annotate(v, base, Some(title), None).Some?
    ensures var w := Annotate(v, base, Some(title), None).value; w.Obj? && TitleOf(w) == Some(title) && SetTitle(w, title) == w
  {
    hide Annotate, AnnotateField;
    Opened(v, base, Some(title), None);
    var w := Annotate(v, base, Some(title), None).value;
    assert w.fields["title" := Str(title)] == w.fields;
  }

  /** A variant that has been named once keeps its name whatever titles are taken. */
  lemma VariantIdempotent(v: Json, base: string, seen: set<string>, seen': set<string>)
    requires v.Obj? && NameVariant(v, base, seen) != Collision
    requires var n := NameVariant(v, base, seen);
             Annotate(v, base, if n.Rename? then Some(n.title) else None, None).Some?
    ensures var n := NameVariant(v, base, seen);
            var w := Annotate(v, base, if n.Rename? then Some(n.title) else None, None).value;
            && w.Obj?
            && var n' := NameVariant(w, base, seen');
               n' != Collision && (n'.Rename? ==> TitleOf(w) == Some(n'.title))
  {
    hide Annotate, AnnotateField, VariantName, TitleOf;
    var n := NameVariant(v, base, seen);
    var t := if n.Rename? then Some(n.title) else None;
    Opened(v, base, t, None);
    var w := Annotate(v, base, t, None).value;
    NameKept(v, w, base, t, None);
    if n.Rename? {
      TitleSet(v, base, n.title);
    } else {
      TitleKept(v, base);
    }
  }

  lemma {:induction false} VariantsIdempotent(variants: seq<Json>, base: string, seen: set<string>, seen': set<string>)
    requires AnnotateVariants(variants, base, seen).Some?
    ensures var out := AnnotateVariants(variants, base, seen).value;
            AnnotateVariants(out, base, seen') == Some(out)
    decreases variants, 0
  {
    hide Annotate, NameVariant;
    if variants != [] {
      var v, rest := variants[0], variants[1..];
      var out := AnnotateVariants(variants, base, seen).value;
      if !v.Obj? {
        VariantsIdempotent(rest, base, seen, seen');
        assert out[1..] == AnnotateVariants(rest, base, seen).value;
      } else {
        var n := NameVariant(v, base, seen);
        var t := if n.Rename? then Some(n.title) else None;
        var w := Annotate(v, base, t, None).value;
        Idempotent(v, base, t, None);
        VariantIdempotent(v, base, seen, seen');
        var n' := NameVariant(w, base, seen');
        var taken := if n.Rename? then seen + {n.title} else seen;
        VariantsIdempotent(rest, base, taken, if n'.Rename? then seen' + {n'.title} else seen');
        assert out[0] == w && out[1..] == AnnotateVariants(rest, base, taken).value;
        if n'.Rename? {
          PendingTitle(w, base, n'.title, None);
          assert SetTitle(w, n'.title) == w by { SetTitleAgain(w, n'.title); }
        }
      }
    }
  }

  lemma SetTitleAgain(w: Json, title: string)
    requires w.Obj? && TitleOf(w) == Some(title)
    ensures SetTitle(w, title) == w
  {
    assert w.fields["title" := Str(title)] == w.fields;
  }
}
