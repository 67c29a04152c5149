/**
  What a schema means: which values it accepts. References are followed through the components of the
  document; Accepts follows at most n of them in a row, and a value is accepted when it is for every large
  enough n. Types are read the way the report reads them.
 */
module SchemaMeaning {
  import opened Json
  import opened Breaking

  const REF_PREFIX: string := "#/components/schemas/"

  /** The component a reference points to, when it is a local reference to one that exists. */
  function Resolve(components: Json, reference: Json): (target: Json) {
    if reference.Str? && REF_PREFIX <= reference.s && Has(Entries(components), reference.s[|REF_PREFIX|..]) then
      At(components, reference.s[|REF_PREFIX|..])
    else Null
  }

  predicate HasType(v: Json, name: Label) {
    match v
    case Null => name == Text("null")
    case Bool(_) => name == Text("boolean")
    case Int(_) => name == Text("integer") || name == Text("number")
    case Float(_) => name == Text("number")
    case Str(_) => name == Text("string")
    case List(_) => name == Text("array")
    case Dict(_) => name == Text("object")
  }

  predicate TypeAccepts(schema: Json, v: Json) {
    var t := SchemaType(schema);
    t.Names? && t.names != multiset{} ==> exists name | name in t.names :: HasType(v, name)
  }

  predicate RequiredAccepts(schema: Json, v: Json) {
    v.Dict? ==> forall name | name in StringSet(At(schema, "required")) && name.Text? :: Has(v.entries, name.text)
  }

  predicate EnumAccepts(schema: Json, v: Json) {
    Has(Entries(schema), "enum") ==> exists e | e in EnumSet(At(schema, "enum")) :: Equal(e, v)
  }

  /** A single literal is exported as a constant. */
  predicate ConstAccepts(schema: Json, v: Json) {
    Has(Entries(schema), "const") ==> Equal(At(schema, "const"), v)
  }

  predicate Accepts(n: nat, components: Json, schema: Json, v: Json)
    decreases n, schema != Null, schema, 3
  {
    match schema
    case Bool(b) => b
    case Dict(_) => MappingAccepts(n, components, schema, v)
    case _ => true
  }

  predicate MappingAccepts(n: nat, components: Json, schema: Json, v: Json)
    requires schema.Dict?
    decreases n, true, schema, 2
  {
    && ReferenceAccepts(n, components, At(schema, "$ref"), v)
    && HeadAccepts(schema, v)
    && EntriesAccept(n, components, schema, v)
    && ElementsAccept(n, components, At(schema, "items"), v)
    && AllAccept(n, components, At(schema, "allOf"), v)
    && (Has(schema.entries, "anyOf") ==> AnyAccepts(n, components, At(schema, "anyOf"), v))
    && (Has(schema.entries, "oneOf") ==> OneAccepts(n, components, At(schema, "oneOf"), v))
  }

  predicate HeadAccepts(schema: Json, v: Json) {
    TypeAccepts(schema, v) && RequiredAccepts(schema, v) && EnumAccepts(schema, v) && ConstAccepts(schema, v)
  }

  predicate ReferenceAccepts(n: nat, components: Json, reference: Json, v: Json)
    decreases n, false
  {
    n > 0 ==> Accepts(n - 1, components, Resolve(components, reference), v)
  }

  predicate ElementsAccept(n: nat, components: Json, schema: Json, v: Json)
    decreases n, schema != Null, schema, 4
  {
    v.List? ==> forall i | 0 <= i < |v.items| :: Accepts(n, components, schema, v.items[i])
  }

  predicate EntriesAccept(n: nat, components: Json, schema: Json, v: Json)
    requires schema.Dict?
    decreases n, true, schema, 1
  {
    v.Dict? ==> forall i | 0 <= i < |v.entries| :: EntryAccepts(n, components, schema, v.entries[i])
  }

  /** A property of the value is judged by its own schema where it is listed, and by the rule for extra ones where not. */
  predicate EntryAccepts(n: nat, components: Json, schema: Json, e: Entry)
    requires schema.Dict?
    decreases n, true, schema, 0
  {
    var props := At(schema, "properties");
    if Has(Entries(props), e.key) then Accepts(n, components, At(props, e.key), e.value)
    else Accepts(n, components, At(schema, "additionalProperties"), e.value)
  }

  predicate AllAccept(n: nat, components: Json, list: Json, v: Json)
    decreases n, list != Null, list, 1
  {
    forall i | 0 <= i < |Items(list)| :: Accepts(n, components, Items(list)[i], v)
  }

  predicate AnyAccepts(n: nat, components: Json, list: Json, v: Json)
    decreases n, list != Null, list, 1
  {
    exists i | 0 <= i < |Items(list)| :: Accepts(n, components, Items(list)[i], v)
  }

  /** Exactly one member accepts. */
  predicate OneAccepts(n: nat, components: Json, list: Json, v: Json)
    decreases n, list != Null, list, 2
  {
    exists i | 0 <= i < |Items(list)| :: OnlyMember(n, components, list, i, v)
  }

  predicate OnlyMember(n: nat, components: Json, list: Json, i: nat, v: Json)
    requires i < |Items(list)|
    decreases n, list != Null, list, 1
  {
    Accepts(n, components, Items(list)[i], v)
    && forall j | 0 <= j < |Items(list)| && j != i :: !Accepts(n, components, Items(list)[j], v)
  }

  ghost predicate Accepted(components: Json, schema: Json, v: Json) {
    exists m: nat :: AcceptedFrom(m, components, schema, v)
  }

  ghost predicate AcceptedFrom(m: nat, components: Json, schema: Json, v: Json) {
    forall n: nat | n >= m :: Accepts(n, components, schema, v)
  }

  // ---------- valid schemas ----------

  /** Schemas are mappings or booleans, and an enum, anyOf or oneOf lists something. */
  predicate ValidSchema(schema: Json)
    decreases schema != Null, schema, 3
  {
    match schema
    case Null => true
    case Bool(_) => true
    case Dict(_) =>
      && Lists(schema, "enum") && Lists(schema, "anyOf") && Lists(schema, "oneOf")
      && ValidProperties(At(schema, "properties"))
      && ValidSchema(At(schema, "items"))
      && ValidSchema(At(schema, "additionalProperties"))
      && ValidList(At(schema, "allOf")) && ValidList(At(schema, "anyOf")) && ValidList(At(schema, "oneOf"))
    case _ => false
  }

  predicate Lists(schema: Json, keyword: string) {
    Has(Entries(schema), keyword) ==> Items(At(schema, keyword)) != []
  }

  predicate ValidProperties(props: Json)
    decreases props != Null, props, 1
  {
    forall i | 0 <= i < |Entries(props)| :: ValidSchema(Entries(props)[i].value)
  }

  predicate ValidList(list: Json)
    decreases list != Null, list, 1
  {
    forall i | 0 <= i < |Items(list)| :: ValidSchema(Items(list)[i])
  }

  // ---------- what the types say ----------

  /** The declared type or types, or else what properties and items suggest. */
  lemma TypesDecide(schema: Json, v: Json)
    requires !Has(Entries(schema), "$ref")
    ensures var t := At(schema, "type");
      TypeAccepts(schema, v) <==>
        if t.Str? then HasType(v, Text(t.s))
        else if t.List? then t.items == [] || exists i | 0 <= i < |t.items| :: HasType(v, LabelOf(t.items[i]))
        else if Has(Entries(schema), "properties") then v.Dict?
        else Has(Entries(schema), "items") ==> v.List?
  {
    var t := At(schema, "type");
    hide Has, LabelOf;
    if t.Str? {
      OneType(schema, v, Text(t.s));
    } else if t.List? {
      ListedTypes(schema, v, t.items);
    } else if Has(Entries(schema), "properties") {
      OneType(schema, v, Text("object"));
    } else if Has(Entries(schema), "items") {
      OneType(schema, v, Text("array"));
    }
  }

  lemma OneType(schema: Json, v: Json, name: Label)
    requires SchemaType(schema) == Names(multiset{name})
    ensures TypeAccepts(schema, v) <==> HasType(v, name)
  {
    hide SchemaType, HasType;
    assert name in multiset{name};
  }

  lemma ListedTypes(schema: Json, v: Json, items: seq<Json>)
    requires SchemaType(schema) == Names(multiset(Labels(items)))
    ensures TypeAccepts(schema, v) <==> items == [] || exists i | 0 <= i < |items| :: HasType(v, LabelOf(items[i]))
  {
    hide SchemaType, HasType, LabelOf, Labels;
    var labels := Labels(items);
    EmptyOrNot(labels);
    if name :| name in multiset(labels) && HasType(v, name) {
      var i :| 0 <= i < |labels| && labels[i] == name;
      assert HasType(v, LabelOf(items[i]));
    }
    if i :| 0 <= i < |items| && HasType(v, LabelOf(items[i])) {
      assert labels[i] in multiset(labels) && HasType(v, labels[i]);
    }
  }

  lemma EmptyOrNot<T>(s: seq<T>)
    ensures s == [] <==> multiset(s) == multiset{}
  {
    assert s != [] ==> s[0] in multiset(s);
  }

  // ---------- absent keywords refuse nothing ----------

  lemma AbsentAccepts(n: nat, components: Json, v: Json)
    ensures Accepts(n, components, Null, v)
    ensures ReferenceAccepts(n, components, Null, v) && ElementsAccept(n, components, Null, v) && AllAccept(n, components, Null, v)
  {
    assert Resolve(components, Null) == Null;
  }

  lemma NoEntryRefused(n: nat, components: Json, schema: Json, v: Json)
    requires schema.Dict? && At(schema, "properties") == At(schema, "additionalProperties") == Null
    ensures EntriesAccept(n, components, schema, v)
  {
    hide Accepts, At;
    if v.Dict? {
      forall i | 0 <= i < |v.entries| ensures EntryAccepts(n, components, schema, v.entries[i]) {
        AbsentAccepts(n, components, v.entries[i].value);
      }
    }
  }

  lemma NoHeadRefused(schema: Json, v: Json)
    requires SchemaType(schema).Ref? || SchemaType(schema) == Names(multiset{})
    requires At(schema, "required") == Null && !Has(Entries(schema), "enum") && !Has(Entries(schema), "const")
    ensures HeadAccepts(schema, v)
  {
    hide SchemaType, At, Has;
    assert StringSet(Null) == {};
  }

  lemma PartsAccept(n: nat, components: Json, schema: Json, v: Json)
    requires schema.Dict?
    ensures Accepts(n, components, schema, v) <==> MappingAccepts(n, components, schema, v)
  {
    hide MappingAccepts;
  }
}
