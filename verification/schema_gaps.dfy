/**
  Where the guard of the theorems on meaning comes from: for an added property, a narrowed member of a oneOf and
  a changed constant the exact condition, and for each part schemas that compare clean and differ in meaning.
 */
module SchemaGaps {
  import opened Common
  import opened Json
  import opened Breaking
  import opened BreakingLaws
  import opened SchemaMeaning
  import opened SchemaUnions
  import opened SchemaSoundness

  /** The report is clean, yet the new schema accepts a value that the old one refuses. */
  ghost predicate Gap(before: Json, after: Json, v: Json) {
    && (forall location :: SchemaFindings(before, after, location) == [])
    && Accepted(Null, after, v) && !Accepted(Null, before, v)
  }

  lemma GapFrom(before: Json, after: Json, v: Json)
    requires Compatible(before, after)
    requires forall n: nat :: Accepts(n, Null, after, v) && !Accepts(n, Null, before, v)
    ensures Gap(before, after, v)
  {
    hide Compatible, Accepts, SchemaFindings;
    forall location ensures SchemaFindings(before, after, location) == [] {
      SchemaEmptyIff(before, after, location);
    }
    assert AcceptedFrom(0, Null, after, v);
    NeverAccepted(Null, before, v);
  }

  lemma NeverAccepted(components: Json, schema: Json, v: Json)
    requires forall n: nat :: !Accepts(n, components, schema, v)
    ensures !Accepted(components, schema, v)
  {
    hide Accepts;
    forall m: nat ensures !AcceptedFrom(m, components, schema, v) {
      assert !Accepts(m, components, schema, v);
    }
  }

  // ---------- schemas that use few keywords ----------

  predicate Only(schema: Json, keywords: set<string>) {
    schema.Dict? && forall i | 0 <= i < |schema.entries| :: schema.entries[i].key in keywords
  }

  lemma Absent(schema: Json, keywords: set<string>, key: string)
    requires Only(schema, keywords) && key !in keywords
    ensures !Has(Entries(schema), key) && At(schema, key) == Null
  {
  }

  lemma NothingCompared()
    ensures Compatible(Null, Null) && ListCompatible(Null, Null) && PropertiesCompatible(Null, Null) && Equal(Null, Null)
  {
  }

  const OBJECT_KEYWORDS: set<string> := {"type", "properties", "additionalProperties"}

  function Object(props: Json, extra: Json): Json {
    Dict([Entry("type", Str("object")), Entry("properties", props), Entry("additionalProperties", extra)])
  }

  lemma ObjectParts(props: Json, extra: Json)
    ensures Only(Object(props, extra), OBJECT_KEYWORDS) && Object(props, extra).Dict?
    ensures At(Object(props, extra), "properties") == props && At(Object(props, extra), "additionalProperties") == extra
    ensures SchemaType(Object(props, extra)) == Names(multiset{Text("object")})
  {
    var o := Object(props, extra);
    assert Get(o.entries[1..], "properties") == props;
    assert Get(o.entries[2..], "additionalProperties") == extra;
    assert o.entries[1..][1..] == o.entries[2..];
    assert o.entries[0].key == "type";
    assert Get(o.entries, "type") == Str("object");
    Absent(o, OBJECT_KEYWORDS, "$ref");
  }

  lemma ObjectKeywords(props: Json, extra: Json)
    ensures var o := Object(props, extra);
      At(o, "$ref") == At(o, "required") == At(o, "enum") == At(o, "const") == At(o, "items") == At(o, "allOf") == At(o, "anyOf") == At(o, "oneOf") == Null
    ensures var entries := Entries(Object(props, extra));
      !Has(entries, "enum") && !Has(entries, "const") && !Has(entries, "anyOf") && !Has(entries, "oneOf")
  {
    var o := Object(props, extra);
    ObjectParts(props, extra);
    hide Object, Only, At, Has;
    Absent(o, OBJECT_KEYWORDS, "$ref");
    Absent(o, OBJECT_KEYWORDS, "required");
    Absent(o, OBJECT_KEYWORDS, "enum");
    Absent(o, OBJECT_KEYWORDS, "const");
    Absent(o, OBJECT_KEYWORDS, "items");
    Absent(o, OBJECT_KEYWORDS, "allOf");
    Absent(o, OBJECT_KEYWORDS, "anyOf");
    Absent(o, OBJECT_KEYWORDS, "oneOf");
  }

  /** Compatible mappings, put together from their keywords. */
  lemma PartsCompatible(o: Json, r: Json)
    requires o.Dict? && r.Dict? && HeadCompatible(o, r)
    requires PropertiesCompatible(At(o, "properties"), At(r, "properties")) && Compatible(At(o, "items"), At(r, "items"))
    requires Compatible(At(o, "additionalProperties"), At(r, "additionalProperties"))
    requires ListCompatible(At(o, "allOf"), At(r, "allOf")) && ListCompatible(At(o, "anyOf"), At(r, "anyOf"))
    requires ListCompatible(At(o, "oneOf"), At(r, "oneOf"))
    ensures Compatible(o, r)
  {
    hide HeadCompatible, PropertiesCompatible, ListCompatible, At, Equal;
    assert ExtrasCompatible(o, r);
    hide ExtrasCompatible;
    assert MappingsCompatible(o, r) by {
      hide Compatible;
    }
    hide MappingsCompatible;
  }

  lemma HeadsCompatible(o: Json, r: Json)
    requires At(o, "$ref") == At(o, "required") == Null && At(r, "$ref") == At(r, "required") == Null
    requires EnumSet(At(o, "enum")) == EnumSet(At(r, "enum")) && SchemaType(o) == SchemaType(r)
    ensures HeadCompatible(o, r)
  {
    hide SchemaType, At, EnumSet;
    NothingCompared();
  }

  lemma ObjectsCompatible(p: Json, e: Json, q: Json, f: Json)
    requires PropertiesCompatible(p, q) && Compatible(e, f)
    ensures Compatible(Object(p, e), Object(q, f))
  {
    hide *;
    var o, r := Object(p, e), Object(q, f);
    ObjectParts(p, e);
    ObjectParts(q, f);
    ObjectKeywords(p, e);
    ObjectKeywords(q, f);
    NothingCompared();
    HeadsCompatible(o, r);
    PartsCompatible(o, r);
  }

  /** What an object schema asks of one entry of the value. */
  predicate Fits(n: nat, components: Json, props: Json, extra: Json, e: Entry) {
    if Has(Entries(props), e.key) then Accepts(n, components, At(props, e.key), e.value)
    else Accepts(n, components, extra, e.value)
  }

  lemma ObjectAccepts(n: nat, components: Json, props: Json, extra: Json, v: Json)
    ensures Accepts(n, components, Object(props, extra), v)
       <==> v.Dict? && forall i | 0 <= i < |v.entries| :: Fits(n, components, props, extra, v.entries[i])
  {
    hide *;
    ObjectParts(props, extra);
    ObjectKeywords(props, extra);
    AbsentAccepts(n, components, v);
    ObjectHead(props, extra, v);
    MappingParts(n, components, Object(props, extra), v);
    PartsFit(n, components, Object(props, extra), v);
  }

  /** With nothing to refuse in the other keywords, acceptance is that of the head and the entries. */
  lemma MappingParts(n: nat, components: Json, schema: Json, v: Json)
    requires schema.Dict? && ReferenceAccepts(n, components, At(schema, "$ref"), v)
    requires ElementsAccept(n, components, At(schema, "items"), v) && AllAccept(n, components, At(schema, "allOf"), v)
    requires !Has(Entries(schema), "anyOf") && !Has(Entries(schema), "oneOf")
    ensures Accepts(n, components, schema, v) <==> HeadAccepts(schema, v) && EntriesAccept(n, components, schema, v)
  {
    hide Has, At, HeadAccepts, ReferenceAccepts, ElementsAccept, AllAccept, EntriesAccept, Accepts;
    PartsAccept(n, components, schema, v);
  }

  lemma PartsFit(n: nat, components: Json, schema: Json, v: Json)
    requires schema.Dict?
    ensures var props, extra := At(schema, "properties"), At(schema, "additionalProperties");
      v.Dict? ==>
        (EntriesAccept(n, components, schema, v) <==> forall i | 0 <= i < |v.entries| :: Fits(n, components, props, extra, v.entries[i]))
  {
    hide Accepts, Has, At;
  }

  lemma ObjectHead(props: Json, extra: Json, v: Json)
    ensures HeadAccepts(Object(props, extra), v) <==> v.Dict?
  {
    ObjectParts(props, extra);
    ObjectKeywords(props, extra);
    HeadOfType(Object(props, extra), v);
  }

  lemma HeadOfType(o: Json, v: Json)
    requires o.Dict? && SchemaType(o) == Names(multiset{Text("object")}) && At(o, "required") == Null
    requires !Has(o.entries, "enum") && !Has(o.entries, "const")
    ensures HeadAccepts(o, v) <==> v.Dict?
  {
    hide At, Has, SchemaType;
    assert StringSet(Null) == {};
    assert Text("object") in multiset{Text("object")};
    assert TypeAccepts(o, v) <==> HasType(v, Text("object"));
  }

  // ---------- a property added to a closed schema ----------

  function Added(props: Json, name: string, schema: Json): Json {
    Dict(Entries(props) + [Entry(name, schema)])
  }

  lemma {:induction false} GetAdded(entries: seq<Entry>, name: string, schema: Json, key: string)
    requires !Has(entries, name)
    ensures Has(entries + [Entry(name, schema)], key) <==> Has(entries, key) || key == name
    ensures Get(entries + [Entry(name, schema)], key) == if key == name then schema else Get(entries, key)
  {
    var more := entries + [Entry(name, schema)];
    assert more[|entries|].key == name;
    assert forall i | 0 <= i < |entries| :: more[i] == entries[i];
    if entries != [] {
      assert more[1..] == entries[1..] + [Entry(name, schema)];
      assert forall i | 0 <= i < |entries| - 1 :: entries[1..][i] == entries[i + 1];
      GetAdded(entries[1..], name, schema, key);
    }
  }

  /** The report does not mind the addition, whatever the schema and whatever the rule for extra properties. */
  lemma AddedCompatible(props: Json, name: string, schema: Json, extra: Json)
    requires props.Dict? && WellFormed(props) && WellFormed(extra) && !Has(props.entries, name)
    ensures Compatible(Object(props, extra), Object(Added(props, name, schema), extra))
  {
    CompatibleReflexive(extra);
    PropertiesReflexive(props);
    hide Compatible, Object;
    var added := Added(props, name, schema);
    forall i | 0 <= i < |props.entries| ensures KeptCompatible(props.entries[i], added) {
      GetAdded(props.entries, name, schema, props.entries[i].key);
      assert KeptCompatible(props.entries[i], props);
    }
    ObjectsCompatible(props, extra, added, extra);
  }

  /** The value satisfies the object schema in which the property has this schema. */
  predicate With(n: nat, components: Json, props: Json, rule: Json, name: string, schema: Json, v: Json) {
    v.Dict? && forall i | 0 <= i < |v.entries| :: WithEntry(n, components, props, rule, name, schema, v.entries[i])
  }

  predicate WithEntry(n: nat, components: Json, props: Json, rule: Json, name: string, schema: Json, e: Entry) {
    if e.key == name then Accepts(n, components, schema, e.value) else Fits(n, components, props, rule, e)
  }

  /** Before the property is listed the rule for extra ones is its schema. */
  lemma BeforeAndAfter(n: nat, components: Json, props: Json, rule: Json, name: string, schema: Json, v: Json)
    requires props.Dict? && !Has(props.entries, name)
    ensures Accepts(n, components, Object(props, rule), v) <==> With(n, components, props, rule, name, rule, v)
    ensures Accepts(n, components, Object(Added(props, name, schema), rule), v) <==> With(n, components, props, rule, name, schema, v)
  {
    hide Accepts, Object, Has, Fits, WithEntry, With, Added;
    forall i | 0 <= i < |Entries(v)|
      ensures Fits(n, components, props, rule, Entries(v)[i]) <==> WithEntry(n, components, props, rule, name, rule, Entries(v)[i])
      ensures Fits(n, components, Added(props, name, schema), rule, Entries(v)[i])
        <==> WithEntry(n, components, props, rule, name, schema, Entries(v)[i])
    {
      EntryBeforeAndAfter(n, components, props, rule, name, schema, Entries(v)[i]);
    }
    ObjectWith(n, components, props, props, rule, name, rule, v);
    ObjectWith(n, components, Added(props, name, schema), props, rule, name, schema, v);
  }

  lemma ObjectWith(n: nat, components: Json, listed: Json, props: Json, rule: Json, name: string, schema: Json, v: Json)
    requires forall i | 0 <= i < |Entries(v)| ::
      Fits(n, components, listed, rule, Entries(v)[i]) <==> WithEntry(n, components, props, rule, name, schema, Entries(v)[i])
    ensures Accepts(n, components, Object(listed, rule), v) <==> With(n, components, props, rule, name, schema, v)
  {
    ObjectAccepts(n, components, listed, rule, v);
    hide Accepts, Object, Fits, WithEntry;
    assert v.Dict? ==> Entries(v) == v.entries;
  }

  lemma EntryBeforeAndAfter(n: nat, components: Json, props: Json, rule: Json, name: string, schema: Json, e: Entry)
    requires props.Dict? && !Has(props.entries, name)
    ensures Fits(n, components, props, rule, e) <==> WithEntry(n, components, props, rule, name, rule, e)
    ensures Fits(n, components, Added(props, name, schema), rule, e) <==> WithEntry(n, components, props, rule, name, schema, e)
  {
    GetAdded(props.entries, name, schema, e.key);
    hide Accepts, Has;
  }

  ghost predicate AcceptedWith(components: Json, props: Json, rule: Json, name: string, schema: Json, v: Json) {
    exists m: nat :: WithFrom(m, components, props, rule, name, schema, v)
  }

  ghost predicate WithFrom(m: nat, components: Json, props: Json, rule: Json, name: string, schema: Json, v: Json) {
    forall n: nat | n >= m :: With(n, components, props, rule, name, schema, v)
  }

  lemma AcceptedBeforeAndAfter(components: Json, props: Json, rule: Json, name: string, schema: Json, v: Json)
    requires props.Dict? && !Has(props.entries, name)
    ensures Accepted(components, Object(props, rule), v) <==> AcceptedWith(components, props, rule, name, rule, v)
    ensures Accepted(components, Object(Added(props, name, schema), rule), v) <==> AcceptedWith(components, props, rule, name, schema, v)
  {
    hide Accepts, With, Object, Has, Accepted, AcceptedWith;
    forall n: nat
      ensures Accepts(n, components, Object(props, rule), v) <==> With(n, components, props, rule, name, rule, v)
      ensures Accepts(n, components, Object(Added(props, name, schema), rule), v) <==> With(n, components, props, rule, name, schema, v)
    {
      BeforeAndAfter(n, components, props, rule, name, schema, v);
    }
    SameDepths(components, Object(props, rule), v, props, rule, name, rule, v);
    SameDepths(components, Object(Added(props, name, schema), rule), v, props, rule, name, schema, v);
  }

  lemma SameDepths(components: Json, whole: Json, x: Json, props: Json, rule: Json, name: string, schema: Json, v: Json)
    requires forall n: nat :: Accepts(n, components, whole, x) <==> With(n, components, props, rule, name, schema, v)
    ensures Accepted(components, whole, x) <==> AcceptedWith(components, props, rule, name, schema, v)
  {
    hide Accepts, With;
    forall m: nat ensures AcceptedFrom(m, components, whole, x) <==> WithFrom(m, components, props, rule, name, schema, v) {
    }
    hide AcceptedFrom, WithFrom;
  }

  /** From that depth on every entry of the name has an accepted value. */
  ghost predicate NamedFrom(m: nat, components: Json, schema: Json, name: string, entries: seq<Entry>) {
    forall i | 0 <= i < |entries| && entries[i].key == name :: AcceptedFrom(m, components, schema, entries[i].value)
  }

  lemma NamedAt(m: nat, n: nat, components: Json, schema: Json, name: string, entries: seq<Entry>, i: nat)
    requires NamedFrom(m, components, schema, name, entries) && n >= m && i < |entries| && entries[i].key == name
    ensures Accepts(n, components, schema, entries[i].value)
  {
    hide Accepts;
  }

  lemma {:induction false} Deep(components: Json, schema: Json, name: string, entries: seq<Entry>, m: nat) returns (deep: nat)
    requires forall i | 0 <= i < |entries| && entries[i].key == name :: Accepted(components, schema, entries[i].value)
    ensures deep >= m && NamedFrom(deep, components, schema, name, entries)
  {
    hide Accepts, AcceptedFrom, NamedFrom;
    deep := m;
    NoneNamed(m, components, schema, name);
    if entries != [] {
      var rest := entries[1..];
      assert forall i | 0 <= i < |rest| :: rest[i] == entries[i + 1];
      var before := Deep(components, schema, name, rest, m);
      deep := before;
      if entries[0].key == name {
        var more: nat :| AcceptedFrom(more, components, schema, entries[0].value);
        deep := if more > deep then more else deep;
        DeeperStill(more, deep, components, schema, entries[0].value);
      }
      NamedFirst(before, deep, components, schema, name, entries);
    } else {
      assert entries == [];
    }
  }

  lemma NoneNamed(m: nat, components: Json, schema: Json, name: string)
    ensures NamedFrom(m, components, schema, name, [])
  {
  }

  lemma DeeperStill(m: nat, n: nat, components: Json, schema: Json, v: Json)
    requires AcceptedFrom(m, components, schema, v) && m <= n
    ensures AcceptedFrom(n, components, schema, v)
  {
    hide Accepts;
  }

  lemma NamedFirst(m: nat, n: nat, components: Json, schema: Json, name: string, entries: seq<Entry>)
    requires entries != [] && m <= n && NamedFrom(m, components, schema, name, entries[1..])
    requires entries[0].key == name ==> AcceptedFrom(n, components, schema, entries[0].value)
    ensures NamedFrom(n, components, schema, name, entries)
  {
    hide AcceptedFrom;
    forall i | 0 <= i < |entries| && entries[i].key == name ensures AcceptedFrom(n, components, schema, entries[i].value) {
      if i > 0 {
        assert entries[i] == entries[1..][i - 1];
        DeeperStill(m, n, components, schema, entries[i].value);
      }
    }
  }

  /** All values pass from one schema of the property to the other exactly when all values of the property do. */
  lemma Carries(components: Json, props: Json, rule: Json, name: string, s: Json, t: Json)
    ensures (forall v :: AcceptedWith(components, props, rule, name, s, v) ==> AcceptedWith(components, props, rule, name, t, v))
       <==> (forall x :: Accepted(components, s, x) ==> Accepted(components, t, x))
  {
    hide AcceptedWith, Accepted;
    if forall x :: Accepted(components, s, x) ==> Accepted(components, t, x) {
      forall v | AcceptedWith(components, props, rule, name, s, v) ensures AcceptedWith(components, props, rule, name, t, v) {
        CarriesOver(components, props, rule, name, s, t, v);
      }
    } else {
      var x :| Accepted(components, s, x) && !Accepted(components, t, x);
      OnlyThat(components, props, rule, name, s, x);
      OnlyThat(components, props, rule, name, t, x);
    }
  }

  lemma OnlyThat(components: Json, props: Json, rule: Json, name: string, s: Json, x: Json)
    ensures AcceptedWith(components, props, rule, name, s, Dict([Entry(name, x)])) <==> Accepted(components, s, x)
  {
    hide Accepts, With, Accepted, AcceptedWith;
    var v := Dict([Entry(name, x)]);
    forall n: nat ensures Accepts(n, components, s, x) <==> With(n, components, props, rule, name, s, v) {
      OnlyThatAt(n, components, props, rule, name, s, x);
    }
    SameDepths(components, s, x, props, rule, name, s, v);
  }

  lemma OnlyThatAt(n: nat, components: Json, props: Json, rule: Json, name: string, s: Json, x: Json)
    ensures With(n, components, props, rule, name, s, Dict([Entry(name, x)])) <==> Accepts(n, components, s, x)
  {
    hide Accepts, Fits;
    var e := Entry(name, x);
    assert WithEntry(n, components, props, rule, name, s, e) <==> Accepts(n, components, s, x);
    hide WithEntry;
    assert Dict([e]).entries[0] == e;
  }

  lemma CarriesOver(components: Json, props: Json, rule: Json, name: string, s: Json, t: Json, v: Json)
    requires forall x :: Accepted(components, s, x) ==> Accepted(components, t, x)
    requires AcceptedWith(components, props, rule, name, s, v)
    ensures AcceptedWith(components, props, rule, name, t, v)
  {
    hide Accepted, WithFrom;
    var m: nat :| WithFrom(m, components, props, rule, name, s, v);
    var deep := CarriesFrom(components, props, rule, name, s, t, v, m);
  }

  lemma CarriesFrom(components: Json, props: Json, rule: Json, name: string, s: Json, t: Json, v: Json, m: nat) returns (deep: nat)
    requires forall x :: Accepted(components, s, x) ==> Accepted(components, t, x)
    requires WithFrom(m, components, props, rule, name, s, v)
    ensures WithFrom(deep, components, props, rule, name, t, v)
  {
    hide *;
    forall i | 0 <= i < |Entries(v)| && Entries(v)[i].key == name ensures Accepted(components, t, Entries(v)[i].value) {
      NamedAccepted(components, props, rule, name, s, v, m, i);
    }
    deep := Deep(components, t, name, Entries(v), m);
    DeepWith(components, props, rule, name, s, t, v, m, deep);
  }

  lemma NamedAccepted(components: Json, props: Json, rule: Json, name: string, s: Json, v: Json, m: nat, i: nat)
    requires WithFrom(m, components, props, rule, name, s, v) && i < |Entries(v)| && Entries(v)[i].key == name
    ensures Accepted(components, s, Entries(v)[i].value)
  {
    hide Accepts, With;
    forall n: nat | n >= m ensures Accepts(n, components, s, Entries(v)[i].value) {
      assert With(n, components, props, rule, name, s, v);
      WithNamed(n, components, props, rule, name, s, v, i);
    }
    assert AcceptedFrom(m, components, s, Entries(v)[i].value);
  }

  lemma WithNamed(n: nat, components: Json, props: Json, rule: Json, name: string, s: Json, v: Json, i: nat)
    requires With(n, components, props, rule, name, s, v) && i < |Entries(v)| && Entries(v)[i].key == name
    ensures Accepts(n, components, s, Entries(v)[i].value)
  {
    hide Accepts, Fits;
    assert WithEntry(n, components, props, rule, name, s, v.entries[i]);
  }

  lemma DeepWith(components: Json, props: Json, rule: Json, name: string, s: Json, t: Json, v: Json, m: nat, deep: nat)
    requires WithFrom(m, components, props, rule, name, s, v) && deep >= m && NamedFrom(deep, components, t, name, Entries(v))
    ensures WithFrom(deep, components, props, rule, name, t, v)
  {
    hide Accepts, With, NamedFrom;
    forall n: nat | n >= deep ensures With(n, components, props, rule, name, t, v) {
      assert With(n, components, props, rule, name, s, v);
      WithOther(n, components, props, rule, name, s, t, v, deep);
    }
  }

  lemma WithOther(n: nat, components: Json, props: Json, rule: Json, name: string, s: Json, t: Json, v: Json, deep: nat)
    requires With(n, components, props, rule, name, s, v) && n >= deep && NamedFrom(deep, components, t, name, Entries(v))
    ensures With(n, components, props, rule, name, t, v)
  {
    hide NamedFrom, WithEntry;
    forall i | 0 <= i < |v.entries| ensures WithEntry(n, components, props, rule, name, t, v.entries[i]) {
      if v.entries[i].key == name {
        NamedAt(deep, n, components, t, name, Entries(v), i);
      }
      OtherEntry(n, components, props, rule, name, s, t, v.entries[i]);
    }
  }

  lemma OtherEntry(n: nat, components: Json, props: Json, rule: Json, name: string, s: Json, t: Json, e: Entry)
    requires WithEntry(n, components, props, rule, name, s, e) && (e.key == name ==> Accepts(n, components, t, e.value))
    ensures WithEntry(n, components, props, rule, name, t, e)
  {
    hide Accepts, Fits;
  }

  /** The report does not mind the addition of a property that nothing requires. */
  lemma AddedClean(props: Json, name: string, schema: Json, rule: Json)
    requires props.Dict? && WellFormed(props) && WellFormed(rule) && !Has(props.entries, name)
    ensures forall location :: SchemaFindings(Object(props, rule), Object(Added(props, name, schema), rule), location) == []
  {
    AddedCompatible(props, name, schema, rule);
    hide Object, Compatible, Added, SchemaFindings, WellFormed, Has;
    forall location ensures SchemaFindings(Object(props, rule), Object(Added(props, name, schema), rule), location) == [] {
      SchemaEmptyIff(Object(props, rule), Object(Added(props, name, schema), rule), location);
    }
  }

  /**
    A property added to an object schema, required by nothing, beside any rule for extra properties: the report
    is clean. Responses keep their meaning if and only if the rule accepted whatever the property's schema
    accepts; requests stay valid if and only if that schema accepts whatever the rule accepted.
   */
  lemma AddedIff(components: Json, props: Json, name: string, schema: Json, rule: Json)
    requires props.Dict? && WellFormed(props) && WellFormed(rule) && !Has(props.entries, name)
    ensures var before, after := Object(props, rule), Object(Added(props, name, schema), rule);
      && (forall location :: SchemaFindings(before, after, location) == [])
      && ((forall v :: Accepted(components, after, v) ==> Accepted(components, before, v))
          <==> forall x :: Accepted(components, schema, x) ==> Accepted(components, rule, x))
      && ((forall v :: Accepted(components, before, v) ==> Accepted(components, after, v))
          <==> forall x :: Accepted(components, rule, x) ==> Accepted(components, schema, x))
  {
    hide SchemaFindings, Object, Added, WellFormed, Accepted, AcceptedWith, Has;
    AddedClean(props, name, schema, rule);
    forall v
      ensures Accepted(components, Object(props, rule), v) <==> AcceptedWith(components, props, rule, name, rule, v)
      ensures Accepted(components, Object(Added(props, name, schema), rule), v) <==> AcceptedWith(components, props, rule, name, schema, v)
    {
      AcceptedBeforeAndAfter(components, props, rule, name, schema, v);
    }
    Carries(components, props, rule, name, schema, rule);
    Carries(components, props, rule, name, rule, schema);
  }

  lemma NothingAndEverything(components: Json, x: Json)
    ensures !Accepted(components, Bool(false), x) && Accepted(components, Null, x)
  {
    assert !Accepts(0, components, Bool(false), x);
    assert forall n: nat :: !Accepts(n, components, Bool(false), x) && Accepts(n, components, Null, x);
    hide Accepts;
    NeverAccepted(components, Bool(false), x);
    assert AcceptedFrom(0, components, Null, x);
  }

  /**
    A property added to a closed schema: responses keep their meaning if and only if its schema accepts no value
    at all; requests always stay valid.
   */
  lemma ClosedAddedIff(components: Json, props: Json, name: string, schema: Json)
    requires props.Dict? && WellFormed(props) && !Has(props.entries, name)
    ensures var before, after := Object(props, Bool(false)), Object(Added(props, name, schema), Bool(false));
      && (forall location :: SchemaFindings(before, after, location) == [])
      && ((forall v :: Accepted(components, after, v) ==> Accepted(components, before, v))
          <==> forall x :: !Accepted(components, schema, x))
      && (forall v :: Accepted(components, before, v) ==> Accepted(components, after, v))
  {
    hide SchemaFindings, Object, Added, Accepted, Has;
    AddedIff(components, props, name, schema, Bool(false));
    forall x ensures !Accepted(components, Bool(false), x) {
      NothingAndEverything(components, x);
    }
  }

  /**
    A property added to an open schema: responses always keep their meaning; requests stay valid if and only if
    its schema accepts every value.
   */
  lemma OpenAddedIff(components: Json, props: Json, name: string, schema: Json)
    requires props.Dict? && WellFormed(props) && !Has(props.entries, name)
    ensures var before, after := Object(props, Null), Object(Added(props, name, schema), Null);
      && (forall location :: SchemaFindings(before, after, location) == [])
      && ((forall v :: Accepted(components, before, v) ==> Accepted(components, after, v))
          <==> forall x :: Accepted(components, schema, x))
      && (forall v :: Accepted(components, after, v) ==> Accepted(components, before, v))
  {
    hide SchemaFindings, Object, Added, Accepted, Has;
    AddedIff(components, props, name, schema, Null);
    forall x ensures Accepted(components, Null, x) {
      NothingAndEverything(components, x);
    }
  }

  // ---------- one example for each condition ----------

  const NOTHING_YET: Json := Dict([])
  const WITH_A: Json := Dict([Entry("a", Null)])

  /** An optional property added to a closed schema: some value is new. */
  lemma ClosedSchemaGap() returns (v: Json)
    ensures Gap(Object(NOTHING_YET, Bool(false)), Object(Added(NOTHING_YET, "a", Bool(true)), Bool(false)), v)
  {
    assert AcceptedFrom(0, Null, Bool(true), Null);
    assert Accepted(Null, Bool(true), Null);
    hide Object, Added, Accepted, SchemaFindings;
    ClosedAddedIff(Null, NOTHING_YET, "a", Bool(true));
    v :| Accepted(Null, Object(Added(NOTHING_YET, "a", Bool(true)), Bool(false)), v) && !Accepted(Null, Object(NOTHING_YET, Bool(false)), v);
  }

  /** A name that was free gets a schema: some request that used it is refused, and nothing is reported. */
  lemma RequestGap() returns (v: Json)
    ensures var before, after := Object(NOTHING_YET, Null), Object(Added(NOTHING_YET, "a", Bool(false)), Null);
      && (forall location :: SchemaFindings(before, after, location) == [])
      && Accepted(Null, before, v) && !Accepted(Null, after, v)
  {
    NothingAndEverything(Null, Null);
    hide Object, Added, Accepted, SchemaFindings;
    OpenAddedIff(Null, NOTHING_YET, "a", Bool(false));
    v :| Accepted(Null, Object(NOTHING_YET, Null), v) && !Accepted(Null, Object(Added(NOTHING_YET, "a", Bool(false)), Null), v);
  }

  /** Whether an open object, and one that excludes the property, accepts a value that has it. */
  lemma OpenAccepts(n: nat)
    ensures Accepts(n, Null, Object(NOTHING_YET, Null), WITH_A)
    ensures !Accepts(n, Null, Object(Added(NOTHING_YET, "a", Bool(false)), Null), WITH_A)
  {
    BeforeAndAfter(n, Null, NOTHING_YET, Null, "a", Bool(false), WITH_A);
    assert !Accepts(n, Null, Bool(false), Null) && Accepts(n, Null, Null, Null);
    hide Accepts, Object, Has, Fits;
    assert WITH_A.entries[0] == Entry("a", Null);
    assert !WithEntry(n, Null, NOTHING_YET, Null, "a", Bool(false), WITH_A.entries[0]);
  }

  lemma OpenCompatible()
    ensures Compatible(Object(NOTHING_YET, Null), Object(Added(NOTHING_YET, "a", Bool(false)), Null))
    ensures Compatible(Object(NOTHING_YET, Null), Object(NOTHING_YET, Null))
  {
    AddedCompatible(NOTHING_YET, "a", Bool(false), Null);
    NothingCompared();
    assert PropertiesCompatible(NOTHING_YET, NOTHING_YET);
    ObjectsCompatible(NOTHING_YET, Null, NOTHING_YET, Null);
  }

  function Single(keyword: string, value: Json): Json {
    Dict([Entry(keyword, value)])
  }

  lemma SingleKeyword(keyword: string, value: Json)
    ensures forall key :: Has(Entries(Single(keyword, value)), key) <==> key == keyword
    ensures forall key :: At(Single(keyword, value), key) == if key == keyword then value else Null
    ensures Single(keyword, value).Dict?
  {
    var entries := Entries(Single(keyword, value));
    assert entries[0].key == keyword && entries[1..] == [];
  }

  lemma SingleUntyped(keyword: string, value: Json)
    requires keyword in {"enum", "anyOf", "oneOf"}
    ensures SchemaType(Single(keyword, value)) == Names(multiset{})
  {
    SingleKeyword(keyword, value);
    assert keyword != "$ref" && keyword != "type" && keyword != "properties" && keyword != "items";
    hide Has, Get;
    assert At(Single(keyword, value), "type") == Null;
  }

  /**
    A oneOf of which member k is narrowed, the others meaning what they did, at any depth: the report is clean
    when the members compare clean. What is valid now was valid before if and only if it is not a value that
    the member drops and exactly one other member claims; what was valid before is still valid if and only if
    it is not one that the member drops and no other claims.
   */
  lemma OneOfNarrowedIff(olds: Json, news: Json, p: Json, q: Json, k: nat)
    requires ListCompatible(p, q) && k < |Items(p)|
    ensures forall location :: SchemaFindings(Single("oneOf", p), Single("oneOf", q), location) == []
    ensures forall n: nat, v | Narrowed(n, olds, p, news, q, k, v) ::
      && ((Accepts(n, news, Single("oneOf", q), v) ==> Accepts(n, olds, Single("oneOf", p), v))
          <==> !(Dropped(n, olds, p, news, q, k, v) && One(Others(n, olds, p, k, v))))
      && ((Accepts(n, olds, Single("oneOf", p), v) ==> Accepts(n, news, Single("oneOf", q), v))
          <==> !(Dropped(n, olds, p, news, q, k, v) && true !in Others(n, olds, p, k, v)))
  {
    SinglesCompatible("oneOf", p, q);
    hide Accepts, Compatible, SchemaFindings, Single, Narrowed, Dropped, Others, One, OneAccepts, ListCompatible;
    forall location ensures SchemaFindings(Single("oneOf", p), Single("oneOf", q), location) == [] {
      SchemaEmptyIff(Single("oneOf", p), Single("oneOf", q), location);
    }
    SameLength(p, q);
    forall n: nat, v | Narrowed(n, olds, p, news, q, k, v)
      ensures (Accepts(n, news, Single("oneOf", q), v) ==> Accepts(n, olds, Single("oneOf", p), v))
        <==> !(Dropped(n, olds, p, news, q, k, v) && One(Others(n, olds, p, k, v)))
      ensures (Accepts(n, olds, Single("oneOf", p), v) ==> Accepts(n, news, Single("oneOf", q), v))
        <==> !(Dropped(n, olds, p, news, q, k, v) && true !in Others(n, olds, p, k, v))
    {
      OneOfAccepts(n, olds, p, v);
      OneOfAccepts(n, news, q, v);
      NarrowedIff(n, olds, p, news, q, k, v);
    }
  }

  lemma SameLength(p: Json, q: Json)
    requires ListCompatible(p, q)
    ensures |Items(p)| == |Items(q)|
  {
    hide Compatible;
  }

  /** A oneOf of two open objects, of which one then excludes a property: a value that both claimed has one taker left. */
  lemma OneOfGap()
    ensures var open, narrowed := Object(NOTHING_YET, Null), Object(Added(NOTHING_YET, "a", Bool(false)), Null);
      Gap(Single("oneOf", List([open, open])), Single("oneOf", List([narrowed, open])), WITH_A)
  {
    var open, narrowed := Object(NOTHING_YET, Null), Object(Added(NOTHING_YET, "a", Bool(false)), Null);
    OpenCompatible();
    hide Object, Compatible, Accepts, Single;
    var p, q := List([open, open]), List([narrowed, open]);
    assert ListCompatible(p, q);
    SinglesCompatible("oneOf", p, q);
    OneOfNarrowedIff(Null, Null, p, q, 0);
    forall n: nat
      ensures Accepts(n, Null, Single("oneOf", q), WITH_A) && !Accepts(n, Null, Single("oneOf", p), WITH_A)
    {
      OpenAccepts(n);
      assert Narrowed(n, Null, p, Null, q, 0, WITH_A) && Dropped(n, Null, p, Null, q, 0, WITH_A);
      assert Alone(Others(n, Null, p, 0, WITH_A), 1);
    }
    GapFrom(Single("oneOf", p), Single("oneOf", q), WITH_A);
  }

  lemma OneOfAccepts(n: nat, components: Json, list: Json, v: Json)
    ensures Accepts(n, components, Single("oneOf", list), v) <==> OneAccepts(n, components, list, v)
  {
    hide *;
    var schema := Single("oneOf", list);
    SingleKeyword("oneOf", list);
    SingleUntyped("oneOf", list);
    NoHeadRefused(schema, v);
    NoEntryRefused(n, components, schema, v);
    AbsentAccepts(n, components, v);
    OnlyUnion(n, components, schema, v);
  }

  lemma OnlyUnion(n: nat, components: Json, schema: Json, v: Json)
    requires schema.Dict? && HeadAccepts(schema, v) && EntriesAccept(n, components, schema, v)
    requires ReferenceAccepts(n, components, At(schema, "$ref"), v) && ElementsAccept(n, components, At(schema, "items"), v)
    requires AllAccept(n, components, At(schema, "allOf"), v) && !Has(Entries(schema), "anyOf") && Has(Entries(schema), "oneOf")
    ensures Accepts(n, components, schema, v) <==> OneAccepts(n, components, At(schema, "oneOf"), v)
  {
    hide Has, At, HeadAccepts, ReferenceAccepts, ElementsAccept, AllAccept, EntriesAccept, OneAccepts, Accepts;
    PartsAccept(n, components, schema, v);
  }

  lemma SinglesCompatible(keyword: string, p: Json, q: Json)
    requires keyword in {"anyOf", "oneOf"} && ListCompatible(p, q)
    ensures Compatible(Single(keyword, p), Single(keyword, q))
  {
    hide *;
    SingleKeyword(keyword, p);
    SingleKeyword(keyword, q);
    SingleUntyped(keyword, p);
    SingleUntyped(keyword, q);
    NothingCompared();
    HeadsCompatible(Single(keyword, p), Single(keyword, q));
    PartsCompatible(Single(keyword, p), Single(keyword, q));
  }

  // ---------- a constant added, changed or removed ----------

  function WithConst(base: Json, constant: Option<Json>): Json {
    if constant.Some? then Added(base, "const", constant.value) else base
  }

  predicate Meets(constant: Option<Json>, v: Json) {
    constant.Some? ==> Equal(constant.value, v)
  }

  /** The two have the same keywords, but for a constant. */
  ghost predicate AlikeButConst(base: Json, s: Json) {
    && base.Dict? && s.Dict?
    && forall key | key != "const" :: (Has(s.entries, key) <==> Has(base.entries, key)) && At(s, key) == At(base, key)
  }

  lemma ConstKeywords(base: Json, constant: Option<Json>)
    requires base.Dict? && !Has(base.entries, "const")
    ensures var s := WithConst(base, constant);
      && s.Dict? && AlikeButConst(base, s) && (Has(s.entries, "const") <==> constant.Some?)
      && (constant.Some? ==> At(s, "const") == constant.value)
  {
    hide Has, Get;
    if constant.Some? {
      forall key
        ensures Has(base.entries + [Entry("const", constant.value)], key) <==> Has(base.entries, key) || key == "const"
        ensures Get(base.entries + [Entry("const", constant.value)], key) == if key == "const" then constant.value else Get(base.entries, key)
      {
        GetAdded(base.entries, "const", constant.value, key);
      }
    }
  }

  lemma ConstKeeps(base: Json, s: Json, key: string)
    requires AlikeButConst(base, s) && key != "const"
    ensures At(s, key) == At(base, key) && (Has(Entries(s), key) <==> Has(Entries(base), key))
  {
    hide At, Has;
  }

  lemma ConstTypes(base: Json, s: Json)
    requires AlikeButConst(base, s)
    ensures SchemaType(s) == SchemaType(base)
  {
    hide *;
    assert "$ref" != "const" && "type" != "const" && "properties" != "const" && "items" != "const";
    ConstKeeps(base, s, "$ref");
    ConstKeeps(base, s, "type");
    ConstKeeps(base, s, "properties");
    ConstKeeps(base, s, "items");
    SameType(base, s);
  }

  lemma SameType(base: Json, s: Json)
    requires (Has(Entries(s), "$ref") <==> Has(Entries(base), "$ref")) && (Has(Entries(s), "items") <==> Has(Entries(base), "items"))
    requires Has(Entries(s), "properties") <==> Has(Entries(base), "properties")
    requires At(s, "$ref") == At(base, "$ref") && At(s, "type") == At(base, "type")
    ensures SchemaType(s) == SchemaType(base)
  {
    hide Has, Get, LabelOf;
  }

  lemma OwnParts(base: Json)
    requires WellFormed(base) && base.Dict?
    ensures HeadCompatible(base, base) && PropertiesCompatible(At(base, "properties"), At(base, "properties"))
    ensures forall key | key == "items" || key == "additionalProperties" :: Compatible(At(base, key), At(base, key))
    ensures forall key | key == "allOf" || key == "anyOf" || key == "oneOf" :: ListCompatible(At(base, key), At(base, key))
  {
    CompatibleReflexive(base);
    hide HeadCompatible, PropertiesCompatible, ListCompatible, WellFormed, At;
    assert MappingsCompatible(base, base);
    GetWellFormed(base, "additionalProperties");
    CompatibleReflexive(At(base, "additionalProperties"));
  }

  lemma ConstHeads(base: Json, s: Json, t: Json)
    requires HeadCompatible(base, base) && AlikeButConst(base, s) && AlikeButConst(base, t)
    ensures HeadCompatible(s, t)
  {
    hide *;
    ConstTypes(base, s);
    ConstTypes(base, t);
    forall key | key != "const" ensures At(s, key) == At(base, key) == At(t, key) {
      ConstKeeps(base, s, key);
      ConstKeeps(base, t, key);
    }
    assert "$ref" != "const" && "required" != "const" && "enum" != "const";
    SameHeads(base, s, t);
  }

  lemma SameHeads(base: Json, s: Json, t: Json)
    requires HeadCompatible(base, base) && SchemaType(s) == SchemaType(base) == SchemaType(t)
    requires At(s, "$ref") == At(base, "$ref") == At(t, "$ref") && At(s, "required") == At(base, "required") == At(t, "required")
    requires At(s, "enum") == At(base, "enum") == At(t, "enum")
    ensures HeadCompatible(s, t)
  {
    hide SchemaType, At, Equal, StringSet, EnumSet;
  }

  lemma ConstCompatible(base: Json, s: Json, t: Json)
    requires WellFormed(base) && AlikeButConst(base, s) && AlikeButConst(base, t) && s.Dict? && t.Dict? && base.Dict?
    ensures Compatible(s, t)
  {
    hide *;
    OwnParts(base);
    ConstHeads(base, s, t);
    forall key | key != "const" ensures At(s, key) == At(base, key) == At(t, key) {
      ConstKeeps(base, s, key);
      ConstKeeps(base, t, key);
    }
    assert "properties" != "const" && "items" != "const" && "additionalProperties" != "const";
    assert "allOf" != "const" && "anyOf" != "const" && "oneOf" != "const";
    PartsCompatible(s, t);
  }

  lemma ConstHead(base: Json, s: Json, v: Json)
    requires AlikeButConst(base, s) && !Has(Entries(base), "const")
    ensures HeadAccepts(s, v) <==> HeadAccepts(base, v) && ConstAccepts(s, v)
  {
    hide *;
    ConstTypes(base, s);
    assert "required" != "const" && "enum" != "const";
    ConstKeeps(base, s, "required");
    ConstKeeps(base, s, "enum");
    SameHead(base, s, v);
  }

  lemma SameHead(base: Json, s: Json, v: Json)
    requires SchemaType(s) == SchemaType(base) && At(s, "required") == At(base, "required") && At(s, "enum") == At(base, "enum")
    requires (Has(Entries(s), "enum") <==> Has(Entries(base), "enum")) && !Has(Entries(base), "const")
    ensures HeadAccepts(s, v) <==> HeadAccepts(base, v) && ConstAccepts(s, v)
  {
    hide TypeAccepts, RequiredAccepts, EnumAccepts, At, Has, Equal;
    TypesKeep(base, s, v);
    SameEnum(base, s, v);
  }

  lemma SameEnum(base: Json, s: Json, v: Json)
    requires At(s, "enum") == At(base, "enum") && (Has(Entries(s), "enum") <==> Has(Entries(base), "enum"))
    ensures EnumAccepts(s, v) <==> EnumAccepts(base, v)
  {
    hide At, Has, Equal, EnumSet;
  }

  lemma ConstEntries(n: nat, components: Json, base: Json, s: Json, v: Json)
    requires AlikeButConst(base, s)
    ensures EntriesAccept(n, components, s, v) <==> EntriesAccept(n, components, base, v)
  {
    hide At, Has, Accepts;
    if v.Dict? {
      assert forall i | 0 <= i < |v.entries| ::
        EntryAccepts(n, components, s, v.entries[i]) <==> EntryAccepts(n, components, base, v.entries[i]);
    }
  }

  lemma ConstIsMet(n: nat, components: Json, base: Json, s: Json, v: Json)
    requires AlikeButConst(base, s) && !Has(base.entries, "const")
    ensures Accepts(n, components, s, v) <==> Accepts(n, components, base, v) && ConstAccepts(s, v)
  {
    hide At, Has, Accepts, ConstAccepts, HeadAccepts, EntriesAccept;
    hide ReferenceAccepts, ElementsAccept, AllAccept, AnyAccepts, OneAccepts;
    ConstHead(base, s, v);
    ConstEntries(n, components, base, s, v);
    PartsAccept(n, components, base, v);
    PartsAccept(n, components, s, v);
  }

  lemma ConstAccepted(components: Json, base: Json, constant: Option<Json>, v: Json)
    requires base.Dict? && !Has(base.entries, "const")
    ensures Accepted(components, WithConst(base, constant), v) <==> Accepted(components, base, v) && Meets(constant, v)
  {
    hide Accepts, WithConst, Has, At, Equal, AlikeButConst;
    var s := WithConst(base, constant);
    ConstKeywords(base, constant);
    assert ConstAccepts(s, v) <==> Meets(constant, v);
    forall n: nat ensures Accepts(n, components, s, v) <==> Accepts(n, components, base, v) && Meets(constant, v) {
      ConstIsMet(n, components, base, s, v);
    }
    hide Meets, ConstAccepts;
    if Meets(constant, v) {
      forall m: nat ensures AcceptedFrom(m, components, s, v) <==> AcceptedFrom(m, components, base, v) {
      }
      hide AcceptedFrom;
    } else {
      NeverAccepted(components, s, v);
    }
  }

  /**
    A constant added, changed or removed is never reported. Responses keep their meaning if and only if all
    that the schema accepts and the new constant lets through the old one did; requests the other way around.
   */
  lemma ConstChangedIff(components: Json, base: Json, a: Option<Json>, b: Option<Json>)
    requires base.Dict? && WellFormed(base) && !Has(base.entries, "const")
    ensures var before, after := WithConst(base, a), WithConst(base, b);
      && (forall location :: SchemaFindings(before, after, location) == [])
      && ((forall v :: Accepted(components, after, v) ==> Accepted(components, before, v))
          <==> forall v | Accepted(components, base, v) && Meets(b, v) :: Meets(a, v))
      && ((forall v :: Accepted(components, before, v) ==> Accepted(components, after, v))
          <==> forall v | Accepted(components, base, v) && Meets(a, v) :: Meets(b, v))
  {
    hide SchemaFindings, WithConst, Accepted, AlikeButConst, Meets, WellFormed, Has, Compatible;
    var before, after := WithConst(base, a), WithConst(base, b);
    ConstKeywords(base, a);
    ConstKeywords(base, b);
    ConstCompatible(base, before, after);
    forall location ensures SchemaFindings(before, after, location) == [] {
      SchemaEmptyIff(before, after, location);
    }
    forall v
      ensures Accepted(components, before, v) <==> Accepted(components, base, v) && Meets(a, v)
      ensures Accepted(components, after, v) <==> Accepted(components, base, v) && Meets(b, v)
    {
      ConstAccepted(components, base, a, v);
      ConstAccepted(components, base, b, v);
    }
  }

  /**
    So a literal text that is exchanged for another keeps responses if and only if the rest of the schema
    refuses the new one, and requests if and only if it refuses the old one.
   */
  lemma LiteralChangedIff(components: Json, base: Json, a: string, b: string)
    requires base.Dict? && WellFormed(base) && !Has(base.entries, "const") && a != b
    ensures var before, after := WithConst(base, Some(Str(a))), WithConst(base, Some(Str(b)));
      && (forall location :: SchemaFindings(before, after, location) == [])
      && ((forall v :: Accepted(components, after, v) ==> Accepted(components, before, v)) <==> !Accepted(components, base, Str(b)))
      && ((forall v :: Accepted(components, before, v) ==> Accepted(components, after, v)) <==> !Accepted(components, base, Str(a)))
  {
    hide SchemaFindings, WithConst, Accepted, WellFormed, Has;
    ConstChangedIff(components, base, Some(Str(a)), Some(Str(b)));
    assert forall v, s: string :: Meets(Some(Str(s)), v) <==> v == Str(s);
    hide Meets;
  }

  /** An empty enum, anyOf or oneOf compares equal to none at all, but nothing satisfies it. */
  lemma EmptyListGap(keyword: string)
    requires keyword in {"enum", "anyOf", "oneOf"}
    ensures Gap(Single(keyword, List([])), Dict([]), Null)
  {
    EmptyListCompatible(keyword);
    hide Compatible;
    forall n: nat ensures Accepts(n, Null, Dict([]), Null) && !Accepts(n, Null, Single(keyword, List([])), Null) {
      EmptyListRefuses(n, keyword);
      EmptyAccepts(n);
    }
    hide Accepts;
    GapFrom(Single(keyword, List([])), Dict([]), Null);
  }

  lemma EmptyListRefuses(n: nat, keyword: string)
    requires keyword in {"enum", "anyOf", "oneOf"}
    ensures !Accepts(n, Null, Single(keyword, List([])), Null)
  {
    var schema, none := Single(keyword, List([])), List([]);
    SingleKeyword(keyword, none);
    assert Items(none) == [] && EnumSet(none) == {};
    hide Has, At, Single;
    assert keyword == "enum" ==> !EnumAccepts(schema, Null);
    assert !AnyAccepts(n, Null, none, Null) && !OneAccepts(n, Null, none, Null);
    hide EnumAccepts, AnyAccepts, OneAccepts;
  }

  lemma EmptyAccepts(n: nat)
    ensures Accepts(n, Null, Dict([]), Null)
  {
    EmptyKeywords();
    hide Has, At, SchemaType, Accepts, HeadAccepts, EntriesAccept, ElementsAccept, AllAccept, ReferenceAccepts;
    NoHeadRefused(Dict([]), Null);
    NoEntryRefused(n, Null, Dict([]), Null);
    AbsentAccepts(n, Null, Null);
    MappingParts(n, Null, Dict([]), Null);
  }

  lemma EmptyListCompatible(keyword: string)
    requires keyword in {"enum", "anyOf", "oneOf"}
    ensures Compatible(Single(keyword, List([])), Dict([]))
  {
    hide *;
    SingleKeyword(keyword, List([]));
    SingleUntyped(keyword, List([]));
    EmptyKeywords();
    NothingCompared();
    HeadsCompatible(Single(keyword, List([])), Dict([]));
    PartsCompatible(Single(keyword, List([])), Dict([]));
  }

  lemma EmptyKeywords()
    ensures forall key :: !Has(Entries(Dict([])), key) && At(Dict([]), key) == Null
    ensures SchemaType(Dict([])) == Names(multiset{}) && EnumSet(List([])) == EnumSet(Null) == {} && StringSet(Null) == {}
    ensures ListCompatible(List([]), Null)
  {
  }

  /** What is no schema can equal one: zero equals false. */
  lemma KindGap()
    ensures Gap(Bool(false), Int(0), Null)
  {
    assert Equal(Bool(false), Int(0));
    assert forall n: nat :: Accepts(n, Null, Int(0), Null) && !Accepts(n, Null, Bool(false), Null);
    GapFrom(Bool(false), Int(0), Null);
  }
}
