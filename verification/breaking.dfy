/** The breaking-change report over two OpenAPI documents, and the relation its emptiness stands for. */
module Breaking {
  import opened Json

  datatype Kind =
    | FieldRemoved | RequiredRemoved | RequiredAdded | TypeChanged | EnumNarrowed | EnumWidened
    | StatusCodeChanged | PathRemoved | MethodRemoved | SchemaRemoved

  /** What the text of a finding names: nothing more, one field, or the values and codes that changed. */
  datatype Detail = Plain | Name(name: Label) | Values(values: set<Json>) | Codes(removed: set<string>, added: set<string>)

  datatype Finding = Finding(kind: Kind, location: string, detail: Detail)

  const HTTP_METHODS: set<string> := {"get", "put", "post", "delete", "options", "head", "patch", "trace"}

  function Join(parent: string, child: string): string {
    if parent == "" then child else parent + "." + child
  }

  // ---------- how a schema is read ----------

  /** Sorted tuples of type names are equal exactly when their multisets are. */
  datatype TypeTuple = Ref(target: Label) | Names(names: multiset<Label>)

  function SchemaType(schema: Json): TypeTuple {
    var entries := Entries(schema);
    if Has(entries, "$ref") then Ref(LabelOf(Get(entries, "$ref")))
    else
      var raw := Get(entries, "type");
      if raw.List? then Names(multiset(Labels(raw.items)))
      else if raw.Str? then Names(multiset{Text(raw.s)})
      else if Has(entries, "properties") then Names(multiset{Text("object")})
      else if Has(entries, "items") then Names(multiset{Text("array")})
      else Names(multiset{})
  }

  function StringSet(value: Json): set<Label> {
    if value.List? then set i | 0 <= i < |value.items| :: LabelOf(value.items[i]) else {}
  }

  /** Enum members are told apart by their printed form, which distinguishes all decoded values. */
  function EnumSet(value: Json): set<Json> {
    if value.List? then set i | 0 <= i < |value.items| :: value.items[i] else {}
  }

  function KeySet(j: Json): set<string> {
    set i | 0 <= i < |Entries(j)| :: Entries(j)[i].key
  }

  /** Only a dictionary of extra properties is compared as a schema. */
  function ExtraSchema(schema: Json): Json {
    var extra := At(schema, "additionalProperties");
    if extra.Dict? then extra else Null
  }

  function RequestSchema(operation: Json): Json {
    var body := At(operation, "requestBody");
    if body.Dict? then ContentSchema(At(body, "content")) else Null
  }

  function ContentSchema(content: Json): Json {
    if !content.Dict? then Null
    else if At(content, "application/json").Dict? then At(At(content, "application/json"), "schema")
    else FirstSchema(content.entries)
  }

  function FirstSchema(entries: seq<Entry>): Json {
    if entries == [] then Null
    else if entries[0].value.Dict? && Has(entries[0].value.entries, "schema") then At(entries[0].value, "schema")
    else FirstSchema(entries[1..])
  }

  // ---------- the findings ----------

  function When(condition: bool, f: Finding): seq<Finding> {
    if condition then [f] else []
  }

  /** One finding for each distinct label among the first count of items that others lacks. */
  function MissingFindings(items: seq<Label>, others: seq<Label>, kind: Kind, location: string, count: nat): seq<Finding>
    requires count <= |items|
  {
    if count == 0 then []
    else
      var x := items[count - 1];
      MissingFindings(items, others, kind, location, count - 1)
      + When(x !in others && x !in items[..count - 1], Finding(kind, location, Name(x)))
  }

  function RequiredFindings(before: Json, after: Json, location: string): seq<Finding> {
    var o, n := Labels(Items(At(before, "required"))), Labels(Items(At(after, "required")));
    MissingFindings(o, n, RequiredRemoved, Join(location, "required"), |o|)
    + MissingFindings(n, o, RequiredAdded, Join(location, "required"), |n|)
  }

  function EnumFindings(before: Json, after: Json, location: string): seq<Finding> {
    var o, n := EnumSet(At(before, "enum")), EnumSet(At(after, "enum"));
    var here := Join(location, "enum");
    When(o - n != {}, Finding(EnumNarrowed, here, Values(o - n)))
    + When(n - o != {}, Finding(EnumWidened, here, Values(n - o)))
  }

  function HeadFindings(before: Json, after: Json, location: string): seq<Finding> {
    When(!Equal(At(before, "$ref"), At(after, "$ref")), Finding(TypeChanged, location, Plain))
    + When(SchemaType(before) != SchemaType(after), Finding(TypeChanged, location, Plain))
    + RequiredFindings(before, after, location)
  }

  function SchemaFindings(before: Json, after: Json, location: string): seq<Finding>
    decreases before != Null, before, 3
  {
    if before == Null && after == Null then []
    else if !before.Dict? || !after.Dict? then When(!Equal(before, after), Finding(TypeChanged, location, Plain))
    else MappingFindings(before, after, location)
  }

  function MappingFindings(before: Json, after: Json, location: string): seq<Finding>
    requires before.Dict?
    decreases true, before, 2
  {
    HeadFindings(before, after, location)
    + PropertyFindings(At(before, "properties"), At(after, "properties"), location, |Entries(At(before, "properties"))|)
    + EnumFindings(before, after, location)
    + SchemaFindings(At(before, "items"), At(after, "items"), Join(location, "items"))
    + ExtraFindings(before, after, Join(location, "additionalProperties"))
    + ListFindings(At(before, "allOf"), At(after, "allOf"), Join(location, "allOf"))
    + ListFindings(At(before, "anyOf"), At(after, "anyOf"), Join(location, "anyOf"))
    + ListFindings(At(before, "oneOf"), At(after, "oneOf"), Join(location, "oneOf"))
  }

  /** The first count properties of before. */
  function PropertyFindings(before: Json, after: Json, location: string, count: nat): seq<Finding>
    requires count <= |Entries(before)|
    decreases before != Null, before, count
  {
    if count == 0 then []
    else
      PropertyFindings(before, after, location, count - 1) + KeptFindings(Entries(before)[count - 1], after, location)
  }

  function KeptFindings(e: Entry, after: Json, location: string): seq<Finding>
    decreases true, e, 0
  {
    var here := Join(location, "properties." + e.key);
    if Has(Entries(after), e.key) then SchemaFindings(e.value, At(after, e.key), here)
    else [Finding(FieldRemoved, here, Name(Text(e.key)))]
  }

  function ExtraFindings(before: Json, after: Json, location: string): seq<Finding>
    requires before.Dict?
    decreases true, before, 1
  {
    var o, n := At(before, "additionalProperties"), At(after, "additionalProperties");
    if o.Dict? || n.Dict? then SchemaFindings(ExtraSchema(before), ExtraSchema(after), location)
    else When(!Equal(o, n), Finding(TypeChanged, location, Plain))
  }

  function ListFindings(before: Json, after: Json, location: string): seq<Finding>
    decreases before != Null, before, |Items(before)| + 1
  {
    if |Items(before)| != |Items(after)| then [Finding(TypeChanged, location, Plain)]
    else MemberFindings(before, after, location, |Items(before)|)
  }

  function MemberFindings(before: Json, after: Json, location: string, count: nat): seq<Finding>
    requires count <= |Items(before)| == |Items(after)|
    decreases before != Null, before, count
  {
    if count == 0 then []
    else
      MemberFindings(before, after, location, count - 1)
      + SchemaFindings(Items(before)[count - 1], Items(after)[count - 1], Join(location, Decimal(count - 1)))
  }

  /** What each entry contributes, in order. */
  function Gather(entries: seq<Entry>, f: Entry -> seq<Finding>): seq<Finding> {
    if entries == [] then []
    else Gather(entries[..|entries| - 1], f) + f(entries[|entries| - 1])
  }

  function ComponentFindings(e: Entry, after: Json, location: string): seq<Finding> {
    var here := Join(location, e.key);
    if Has(Entries(after), e.key) then SchemaFindings(e.value, At(after, e.key), here)
    else [Finding(SchemaRemoved, here, Name(Text(e.key)))]
  }

  function StatusFindings(before: Json, after: Json, location: string): seq<Finding> {
    var o, n := KeySet(before), KeySet(after);
    When(o - n != {} || n - o != {}, Finding(StatusCodeChanged, location, Codes(o - n, n - o)))
  }

  function ResponseSchema(response: Json): Json {
    ContentSchema(At(response, "content"))
  }

  /** The body of a code that both operations answer with. */
  function BodyFindings(e: Entry, after: Json, location: string): seq<Finding> {
    if Has(Entries(after), e.key) then
      SchemaFindings(ResponseSchema(e.value), ResponseSchema(At(after, e.key)), Join(location, e.key + ".content"))
    else []
  }

  function OperationFindings(before: Json, after: Json, location: string): seq<Finding> {
    var o, n := At(before, "responses"), At(after, "responses");
    var here := Join(location, "responses");
    StatusFindings(o, n, here)
    + Gather(Entries(o), e => BodyFindings(e, n, here))
    + SchemaFindings(RequestSchema(before), RequestSchema(after), Join(location, "requestBody"))
  }

  function MethodFindings(e: Entry, after: Json, location: string): seq<Finding> {
    var here := Join(location, e.key);
    if e.key !in HTTP_METHODS then []
    else if Has(Entries(after), e.key) then OperationFindings(e.value, At(after, e.key), here)
    else [Finding(MethodRemoved, here, Name(Text(e.key)))]
  }

  function PathFindings(e: Entry, after: Json, location: string): seq<Finding> {
    var here := Join(location, e.key);
    if Has(Entries(after), e.key) then
      var item := At(after, e.key);
      Gather(Entries(e.value), m => MethodFindings(m, item, here))
    else [Finding(PathRemoved, here, Name(Text(e.key)))]
  }

  function Schemas(document: Json): Json {
    At(At(document, "components"), "schemas")
  }

  function DocumentFindings(before: Json, after: Json): seq<Finding> {
    var paths, schemas := At(after, "paths"), Schemas(after);
    Gather(Entries(At(before, "paths")), e => PathFindings(e, paths, "paths"))
    + Gather(Entries(Schemas(before)), e => ComponentFindings(e, schemas, "components.schemas"))
  }

  // ---------- operations and responses ----------

  function Operation(document: Json, path: string, verb: string): Json {
    At(At(At(document, "paths"), path), verb)
  }

  function ResponseAt(document: Json, path: string, verb: string, code: string): Json {
    ResponseSchema(At(At(Operation(document, path, verb), "responses"), code))
  }

  predicate HasOperation(document: Json, path: string, verb: string) {
    && Has(Entries(At(document, "paths")), path)
    && Has(Entries(At(At(document, "paths"), path)), verb)
    && verb in HTTP_METHODS
  }

  predicate HasResponse(document: Json, path: string, verb: string, code: string) {
    HasOperation(document, path, verb) && Has(Entries(At(Operation(document, path, verb), "responses")), code)
  }

  // ---------- the relation ----------

  predicate Compatible(before: Json, after: Json)
    decreases before != Null, before, 3
  {
    if before.Dict? && after.Dict? then MappingsCompatible(before, after) else Equal(before, after)
  }

  predicate MappingsCompatible(before: Json, after: Json)
    requires before.Dict?
    decreases true, before, 2
  {
    && HeadCompatible(before, after)
    && PropertiesCompatible(At(before, "properties"), At(after, "properties"))
    && Compatible(At(before, "items"), At(after, "items"))
    && ExtrasCompatible(before, after)
    && ListCompatible(At(before, "allOf"), At(after, "allOf"))
    && ListCompatible(At(before, "anyOf"), At(after, "anyOf"))
    && ListCompatible(At(before, "oneOf"), At(after, "oneOf"))
  }

  /** The same reference, the same types, the same required names and the same enum members. */
  predicate HeadCompatible(before: Json, after: Json) {
    && Equal(At(before, "$ref"), At(after, "$ref"))
    && SchemaType(before) == SchemaType(after)
    && StringSet(At(before, "required")) == StringSet(At(after, "required"))
    && EnumSet(At(before, "enum")) == EnumSet(At(after, "enum"))
  }

  /** No property has gone, and each one kept is compatible; properties may be added. */
  predicate PropertiesCompatible(before: Json, after: Json)
    decreases before != Null, before, 1
  {
    forall i | 0 <= i < |Entries(before)| :: KeptCompatible(Entries(before)[i], after)
  }

  predicate KeptCompatible(e: Entry, after: Json)
    decreases true, e, 0
  {
    Has(Entries(after), e.key) && Compatible(e.value, At(after, e.key))
  }

  predicate ExtrasCompatible(before: Json, after: Json)
    requires before.Dict?
    decreases true, before, 1
  {
    var o, n := At(before, "additionalProperties"), At(after, "additionalProperties");
    if o.Dict? && n.Dict? then Compatible(o, n) else Equal(o, n)
  }

  predicate ListCompatible(before: Json, after: Json)
    decreases before != Null, before, 1
  {
    |Items(before)| == |Items(after)|
    && forall i | 0 <= i < |Items(before)| :: Compatible(Items(before)[i], Items(after)[i])
  }

  predicate OperationCompatible(before: Json, after: Json) {
    var o, n := At(before, "responses"), At(after, "responses");
    && KeySet(o) == KeySet(n)
    && (forall i | 0 <= i < |Entries(o)| :: BodyCompatible(Entries(o)[i], n))
    && Compatible(RequestSchema(before), RequestSchema(after))
  }

  predicate BodyCompatible(e: Entry, after: Json) {
    Has(Entries(after), e.key) ==> Compatible(ResponseSchema(e.value), ResponseSchema(At(after, e.key)))
  }

  predicate MethodCompatible(e: Entry, after: Json) {
    e.key in HTTP_METHODS ==> Has(Entries(after), e.key) && OperationCompatible(e.value, At(after, e.key))
  }

  predicate PathCompatible(e: Entry, after: Json) {
    Has(Entries(after), e.key)
    && forall i | 0 <= i < |Entries(e.value)| :: MethodCompatible(Entries(e.value)[i], At(after, e.key))
  }

  /** Every path, method and response code of the old document is still there with a compatible schema. */
  predicate DocumentCompatible(before: Json, after: Json) {
    && (forall i | 0 <= i < |Entries(At(before, "paths"))| :: PathCompatible(Entries(At(before, "paths"))[i], At(after, "paths")))
    && PropertiesCompatible(Schemas(before), Schemas(after))
  }

  // ---------- an empty report means compatible ----------

  lemma {:induction false} MissingEmptyIff(items: seq<Label>, others: seq<Label>, kind: Kind, location: string, count: nat)
    requires count <= |items|
    ensures MissingFindings(items, others, kind, location, count) == [] <==> forall x | x in items[..count] :: x in others
  {
    if count > 0 {
      MissingEmptyIff(items, others, kind, location, count - 1);
      assert items[..count] == items[..count - 1] + [items[count - 1]];
    }
  }

  lemma MissingBothEmptyIff(p: seq<Label>, q: seq<Label>, location: string)
    ensures MissingFindings(p, q, RequiredRemoved, location, |p|) + MissingFindings(q, p, RequiredAdded, location, |q|) == []
       <==> forall x :: x in p <==> x in q
  {
    MissingEmptyIff(p, q, RequiredRemoved, location, |p|);
    MissingEmptyIff(q, p, RequiredAdded, location, |q|);
    assert p[..|p|] == p && q[..|q|] == q;
    hide MissingFindings;
  }

  lemma RequiredEmptyIff(before: Json, after: Json, location: string)
    ensures RequiredFindings(before, after, location) == []
       <==> StringSet(At(before, "required")) == StringSet(At(after, "required"))
  {
    hide At, MissingFindings, Join, Labels, Items, StringSet;
    var o, n := At(before, "required"), At(after, "required");
    MissingBothEmptyIff(Labels(Items(o)), Labels(Items(n)), Join(location, "required"));
    SetOfLabels(o);
    SetOfLabels(n);
  }

  lemma DifferencesEmptyIff<T>(p: set<T>, q: set<T>)
    ensures p - q == {} && q - p == {} <==> p == q
  {
    if p - q == {} && q - p == {} {
      forall x ensures x in p <==> x in q { assert x !in p - q && x !in q - p; }
    }
  }

  lemma HeadEmptyIff(before: Json, after: Json, location: string)
    ensures HeadFindings(before, after, location) == [] && EnumFindings(before, after, location) == []
       <==> HeadCompatible(before, after)
  {
    hide At, Equal, SchemaType, RequiredFindings, StringSet, EnumSet;
    RequiredEmptyIff(before, after, location);
    DifferencesEmptyIff(EnumSet(At(before, "enum")), EnumSet(At(after, "enum")));
  }

  lemma SetOfLabels(value: Json)
    ensures forall x :: x in StringSet(value) <==> x in Labels(Items(value))
  {
    forall x ensures x in StringSet(value) <==> x in Labels(Items(value)) {
      if x in Labels(Items(value)) {
        var i :| 0 <= i < |Items(value)| && Labels(Items(value))[i] == x;
        assert LabelOf(value.items[i]) == x;
      }
      if x in StringSet(value) {
        var i :| 0 <= i < |value.items| && LabelOf(value.items[i]) == x;
        assert Labels(Items(value))[i] == x;
      }
    }
  }

  lemma {:induction false} SchemaEmptyIff(before: Json, after: Json, location: string)
    ensures SchemaFindings(before, after, location) == [] <==> Compatible(before, after)
    decreases before != Null, before, 3
  {
    hide MappingFindings, MappingsCompatible;
    if before.Dict? && after.Dict? {
      MappingEmptyIff(before, after, location);
    }
  }

  lemma {:induction false} MappingEmptyIff(before: Json, after: Json, location: string)
    requires before.Dict? && after.Dict?
    ensures MappingFindings(before, after, location) == [] <==> MappingsCompatible(before, after)
    decreases true, before, 2
  {
    hide SchemaFindings, PropertyFindings, ExtraFindings, ListFindings, EnumFindings, HeadFindings;
    hide Compatible, KeptCompatible, ExtrasCompatible, ListCompatible, HeadCompatible, At;
    HeadEmptyIff(before, after, location);
    PropertyEmptyIff(At(before, "properties"), At(after, "properties"), location, |Entries(At(before, "properties"))|);
    SchemaEmptyIff(At(before, "items"), At(after, "items"), Join(location, "items"));
    ExtraEmptyIff(before, after, Join(location, "additionalProperties"));
    ListEmptyIff(At(before, "allOf"), At(after, "allOf"), Join(location, "allOf"));
    ListEmptyIff(At(before, "anyOf"), At(after, "anyOf"), Join(location, "anyOf"));
    ListEmptyIff(At(before, "oneOf"), At(after, "oneOf"), Join(location, "oneOf"));
  }

  lemma {:induction false} PropertyEmptyIff(before: Json, after: Json, location: string, count: nat)
    requires count <= |Entries(before)|
    ensures PropertyFindings(before, after, location, count) == []
       <==> forall i | 0 <= i < count :: KeptCompatible(Entries(before)[i], after)
    decreases before != Null, before, count
  {
    hide KeptCompatible, KeptFindings;
    if count > 0 {
      PropertyEmptyIff(before, after, location, count - 1);
      KeptEmptyIff(Entries(before)[count - 1], after, location);
    }
  }

  lemma {:induction false} KeptEmptyIff(e: Entry, after: Json, location: string)
    ensures KeptFindings(e, after, location) == [] <==> KeptCompatible(e, after)
    decreases true, e, 0
  {
    hide SchemaFindings, Compatible;
    SchemaEmptyIff(e.value, At(after, e.key), Join(location, "properties." + e.key));
  }

  lemma {:induction false} ExtraEmptyIff(before: Json, after: Json, location: string)
    requires before.Dict?
    ensures ExtraFindings(before, after, location) == [] <==> ExtrasCompatible(before, after)
    decreases true, before, 1
  {
    hide MappingFindings, MappingsCompatible;
    SchemaEmptyIff(ExtraSchema(before), ExtraSchema(after), location);
  }

  lemma {:induction false} ListEmptyIff(before: Json, after: Json, location: string)
    ensures ListFindings(before, after, location) == [] <==> ListCompatible(before, after)
    decreases before != Null, before, |Items(before)| + 1
  {
    if |Items(before)| == |Items(after)| {
      MemberEmptyIff(before, after, location, |Items(before)|);
    }
  }

  lemma {:induction false} MemberEmptyIff(before: Json, after: Json, location: string, count: nat)
    requires count <= |Items(before)| == |Items(after)|
    ensures MemberFindings(before, after, location, count) == []
       <==> forall i | 0 <= i < count :: Compatible(Items(before)[i], Items(after)[i])
    decreases before != Null, before, count
  {
    hide Compatible, SchemaFindings, Decimal, Join, At;
    if count > 0 {
      MemberEmptyIff(before, after, location, count - 1);
      SchemaEmptyIff(Items(before)[count - 1], Items(after)[count - 1], Join(location, Decimal(count - 1)));
    }
  }

  lemma {:induction false} GatherEmptyIff(entries: seq<Entry>, f: Entry -> seq<Finding>)
    ensures Gather(entries, f) == [] <==> forall i | 0 <= i < |entries| :: f(entries[i]) == []
  {
    if entries != [] {
      GatherEmptyIff(entries[..|entries| - 1], f);
    }
  }

  lemma OperationEmptyIff(before: Json, after: Json, location: string)
    ensures OperationFindings(before, after, location) == [] <==> OperationCompatible(before, after)
  {
    hide At, SchemaFindings, Compatible, KeySet, RequestSchema, ResponseSchema;
    var o, n := At(before, "responses"), At(after, "responses");
    var here := Join(location, "responses");
    var f := e => BodyFindings(e, n, here);
    GatherEmptyIff(Entries(o), f);
    forall i | 0 <= i < |Entries(o)| ensures f(Entries(o)[i]) == [] <==> BodyCompatible(Entries(o)[i], n) {
      var e := Entries(o)[i];
      SchemaEmptyIff(ResponseSchema(e.value), ResponseSchema(At(n, e.key)), Join(here, e.key + ".content"));
    }
    DifferencesEmptyIff(KeySet(o), KeySet(n));
    SchemaEmptyIff(RequestSchema(before), RequestSchema(after), Join(location, "requestBody"));
  }

  lemma PathEmptyIff(e: Entry, after: Json, location: string)
    ensures PathFindings(e, after, location) == [] <==> PathCompatible(e, after)
  {
    hide At, OperationFindings, OperationCompatible;
    if Has(Entries(after), e.key) {
      var item, here := At(after, e.key), Join(location, e.key);
      var f := m => MethodFindings(m, item, here);
      GatherEmptyIff(Entries(e.value), f);
      forall i | 0 <= i < |Entries(e.value)| ensures f(Entries(e.value)[i]) == [] <==> MethodCompatible(Entries(e.value)[i], item) {
        var m := Entries(e.value)[i];
        OperationEmptyIff(m.value, At(item, m.key), Join(here, m.key));
      }
    }
  }

  /** The report is empty exactly when the documents are compatible. */
  lemma ReportEmptyIff(before: Json, after: Json)
    ensures DocumentFindings(before, after) == [] <==> DocumentCompatible(before, after)
  {
    hide At, SchemaFindings, Compatible, PathFindings, PathCompatible;
    var paths, schemas := At(after, "paths"), Schemas(after);
    var olds, comps := Entries(At(before, "paths")), Entries(Schemas(before));
    var f := e => PathFindings(e, paths, "paths");
    var g := e => ComponentFindings(e, schemas, "components.schemas");
    GatherEmptyIff(olds, f);
    GatherEmptyIff(comps, g);
    forall i | 0 <= i < |olds| ensures f(olds[i]) == [] <==> PathCompatible(olds[i], paths) {
      PathEmptyIff(olds[i], paths, "paths");
    }
    forall i | 0 <= i < |comps| ensures g(comps[i]) == [] <==> KeptCompatible(comps[i], schemas) {
      SchemaEmptyIff(comps[i].value, At(schemas, comps[i].key), Join("components.schemas", comps[i].key));
    }
  }
}
