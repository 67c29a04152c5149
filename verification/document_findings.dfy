/** The same for whole documents: their paths, methods, status codes, components, and the schemas at every place. */
module DocumentDifferences {
  import opened Json
  import opened Breaking
  import opened SchemaDifferences

  // ---------- places in a document ----------

  datatype Place = InComponent(name: string) | InResponse(path: string, verb: string, code: string) | InRequest(path: string, verb: string)

  predicate Present(document: Json, place: Place) {
    match place
    case InComponent(name) => Has(Entries(Schemas(document)), name)
    case InResponse(path, verb, code) => HasResponse(document, path, verb, code)
    case InRequest(path, verb) => HasOperation(document, path, verb)
  }

  function SchemaAt(document: Json, place: Place): Json {
    match place
    case InComponent(name) => At(Schemas(document), name)
    case InResponse(path, verb, code) => ResponseAt(document, path, verb, code)
    case InRequest(path, verb) => RequestSchema(Operation(document, path, verb))
  }

  function OperationText(path: string, verb: string): string {
    "paths." + path + "." + verb
  }

  function PlaceText(place: Place): string {
    match place
    case InComponent(name) => "components.schemas." + name
    case InResponse(path, verb, code) => OperationText(path, verb) + ".responses." + code + ".content"
    case InRequest(path, verb) => OperationText(path, verb) + ".requestBody"
  }

  /** The codes with which only one of the documents answers. */
  ghost predicate CodesOnlyIn(codes: set<string>, one: Json, other: Json, path: string, verb: string) {
    forall code :: code in codes <==> HasResponse(one, path, verb, code) && !HasResponse(other, path, verb, code)
  }

  ghost predicate MethodGone(before: Json, after: Json, path: string, verb: string, f: Finding) {
    && HasOperation(before, path, verb) && !HasOperation(after, path, verb) && Has(Entries(At(after, "paths")), path)
    && f == Finding(MethodRemoved, OperationText(path, verb), Name(Text(verb)))
  }

  ghost predicate CodesChanged(before: Json, after: Json, path: string, verb: string, f: Finding) {
    && HasOperation(before, path, verb) && HasOperation(after, path, verb)
    && f.kind == StatusCodeChanged && f.location == OperationText(path, verb) + ".responses"
    && f.detail.Codes? && (f.detail.removed != {} || f.detail.added != {})
    && CodesOnlyIn(f.detail.removed, before, after, path, verb) && CodesOnlyIn(f.detail.added, after, before, path, verb)
  }

  predicate ComponentGone(before: Json, after: Json, name: string, f: Finding) {
    && Has(Entries(Schemas(before)), name) && !Has(Entries(Schemas(after)), name)
    && f == Finding(SchemaRemoved, PlaceText(InComponent(name)), Name(Text(name)))
  }

  predicate PathGone(before: Json, after: Json, path: string, f: Finding) {
    && Has(Entries(At(before, "paths")), path) && !Has(Entries(At(after, "paths")), path)
    && f == Finding(PathRemoved, "paths." + path, Name(Text(path)))
  }

  /** The finding names a path, method, status code or component that one of the documents has and the other has not. */
  ghost predicate DocumentsDiffer(before: Json, after: Json, f: Finding) {
    || (exists path :: PathGone(before, after, path, f))
    || (exists path, verb :: MethodGone(before, after, path, verb, f))
    || (exists path, verb :: CodesChanged(before, after, path, verb, f))
    || (exists name :: ComponentGone(before, after, name, f))
  }

  /** The finding names a difference between the schemas at a place that both documents have. */
  ghost predicate SchemasDiffer(before: Json, after: Json, place: Place, f: Finding) {
    && Present(before, place) && Present(after, place)
    && SchemaDiffers(SchemaAt(before, place), SchemaAt(after, place), PlaceText(place), f)
  }

  // ---------- the comparison of documents ----------

  lemma {:induction false} GatherHas(entries: seq<Entry>, g: Entry -> seq<Finding>, f: Finding)
    ensures f in Gather(entries, g) <==> exists i | 0 <= i < |entries| :: f in g(entries[i])
  {
    if entries != [] {
      GatherHas(entries[..|entries| - 1], g, f);
    }
  }

  lemma GatherByKey(j: Json, g: Entry -> seq<Finding>, f: Finding)
    requires WellFormed(j)
    ensures f in Gather(Entries(j), g) <==> exists key :: Has(Entries(j), key) && f in g(Entry(key, At(j, key)))
  {
    GatherHas(Entries(j), g, f);
    KeysDistinct(j);
    hide Gather, WellFormed;
    forall i: nat | i < |Entries(j)| ensures Has(Entries(j), Entries(j)[i].key) && Entries(j)[i] == Entry(Entries(j)[i].key, At(j, Entries(j)[i].key)) {
      GetOwn(Entries(j), i);
    }
    hide At, DistinctKeys;
  }

  lemma {:induction false} FirstWellFormed(entries: seq<Entry>)
    requires forall i | 0 <= i < |entries| :: WellFormed(entries[i].value)
    ensures WellFormed(FirstSchema(entries))
  {
    if entries != [] {
      GetWellFormed(entries[0].value, "schema");
      FirstWellFormed(entries[1..]);
    }
  }

  lemma ContentWellFormed(content: Json)
    requires WellFormed(content)
    ensures WellFormed(ContentSchema(content))
  {
    GetWellFormed(content, "application/json");
    GetWellFormed(At(content, "application/json"), "schema");
    if content.Dict? {
      FirstWellFormed(content.entries);
    }
  }

  /** A response code that both operations have. */
  predicate FoundInResponse(before: Json, after: Json, location: string, code: string, f: Finding) {
    var o, n := At(before, "responses"), At(after, "responses");
    && Has(Entries(o), code) && Has(Entries(n), code)
    && f in SchemaFindings(ResponseSchema(At(o, code)), ResponseSchema(At(n, code)), location + ".responses." + code + ".content")
  }

  predicate StatusDiffers(before: Json, after: Json, location: string, f: Finding) {
    var o, n := KeySet(At(before, "responses")), KeySet(At(after, "responses"));
    f == Finding(StatusCodeChanged, location + ".responses", Codes(o - n, n - o)) && o != n
  }

  lemma BodyHas(before: Json, after: Json, location: string, code: string, f: Finding)
    requires location != "" && Has(Entries(At(before, "responses")), code)
    ensures f in BodyFindings(Entry(code, At(At(before, "responses"), code)), At(after, "responses"), Join(location, "responses"))
       <==> FoundInResponse(before, after, location, code, f)
  {
    hide SchemaFindings, At, ResponseSchema, Join;
    ContentText(location, code);
  }

  lemma ContentText(location: string, code: string)
    requires location != ""
    ensures Join(Join(location, "responses"), code + ".content") == location + ".responses." + code + ".content"
  {
    JoinIsDotted(location, "responses", ".responses");
    JoinIsDotted(location + ".responses", code + ".content", "." + (code + ".content"));
    assert location + ".responses" + ("." + (code + ".content")) == location + ".responses." + code + ".content";
  }

  lemma OperationHas(before: Json, after: Json, location: string, f: Finding)
    requires location != "" && WellFormed(before)
    ensures f in OperationFindings(before, after, location) <==>
      || StatusDiffers(before, after, location, f)
      || (exists code :: FoundInResponse(before, after, location, code, f))
      || f in SchemaFindings(RequestSchema(before), RequestSchema(after), location + ".requestBody")
  {
    hide SchemaFindings, At, ResponseSchema, RequestSchema, KeySet, Gather, FoundInResponse, BodyFindings, Join, WellFormed;
    var o, n := At(before, "responses"), At(after, "responses");
    var here := Join(location, "responses");
    JoinIsDotted(location, "responses", ".responses");
    JoinIsDotted(location, "requestBody", ".requestBody");
    GetWellFormed(before, "responses");
    var g := e => BodyFindings(e, n, here);
    GatherByKey(o, g, f);
    DifferencesEmptyIff(KeySet(o), KeySet(n));
    forall code | Has(Entries(o), code) ensures f in g(Entry(code, At(o, code))) <==> FoundInResponse(before, after, location, code, f) {
      BodyHas(before, after, location, code, f);
    }
    FoundHasCode(before, after, location, f);
  }

  lemma FoundHasCode(before: Json, after: Json, location: string, f: Finding)
    ensures forall code :: FoundInResponse(before, after, location, code, f) ==> Has(Entries(At(before, "responses")), code)
  {
    hide SchemaFindings, At, ResponseSchema;
  }

  /** What the comparison of an operation that the old document has contributes. */
  predicate FoundInOperation(before: Json, after: Json, path: string, verb: string, f: Finding) {
    && HasOperation(before, path, verb)
    && if HasOperation(after, path, verb) then
         f in OperationFindings(Operation(before, path, verb), Operation(after, path, verb), OperationText(path, verb))
       else f == Finding(MethodRemoved, OperationText(path, verb), Name(Text(verb)))
  }

  lemma MethodHas(before: Json, after: Json, path: string, verb: string, f: Finding)
    requires Has(Entries(At(before, "paths")), path) && Has(Entries(At(after, "paths")), path)
    requires Has(Entries(At(At(before, "paths"), path)), verb)
    ensures f in MethodFindings(Entry(verb, Operation(before, path, verb)), At(At(after, "paths"), path), Join("paths", path))
       <==> FoundInOperation(before, after, path, verb, f)
  {
    hide OperationFindings, At, Has, Join;
    MethodText(path, verb);
  }

  lemma MethodText(path: string, verb: string)
    ensures Join("paths", path) == "paths." + path && Join(Join("paths", path), verb) == OperationText(path, verb)
  {
    JoinIsDotted("paths", path, "." + path);
    JoinIsDotted("paths." + path, verb, "." + verb);
    assert "paths" + ("." + path) == "paths." + path;
    assert "paths." + path + ("." + verb) == OperationText(path, verb);
  }

  lemma PathHas(before: Json, after: Json, path: string, f: Finding)
    requires WellFormed(before) && Has(Entries(At(before, "paths")), path)
    ensures f in PathFindings(Entry(path, At(At(before, "paths"), path)), At(after, "paths"), "paths") <==>
      || PathGone(before, after, path, f)
      || (Has(Entries(At(after, "paths")), path) && exists verb :: FoundInOperation(before, after, path, verb, f))
  {
    hide MethodFindings, At, Has, Join, WellFormed, Gather, FoundInOperation;
    MethodText(path, "");
    if Has(Entries(At(after, "paths")), path) {
      GetWellFormed(before, "paths");
      GetWellFormed(At(before, "paths"), path);
      var item, other, here := At(At(before, "paths"), path), At(At(after, "paths"), path), Join("paths", path);
      var g := m => MethodFindings(m, other, here);
      GatherByKey(item, g, f);
      forall verb | Has(Entries(item), verb) ensures f in g(Entry(verb, At(item, verb))) <==> FoundInOperation(before, after, path, verb, f) {
        MethodHas(before, after, path, verb, f);
      }
      FoundHasMethod(before, after, path, f);
    }
  }

  lemma FoundHasMethod(before: Json, after: Json, path: string, f: Finding)
    ensures forall verb :: FoundInOperation(before, after, path, verb, f) ==>
      Has(Entries(At(before, "paths")), path) && Has(Entries(At(At(before, "paths"), path)), verb)
  {
    hide At, Has, OperationFindings;
  }

  lemma PathsHave(before: Json, after: Json, f: Finding)
    requires WellFormed(before)
    ensures var paths := At(after, "paths");
      f in Gather(Entries(At(before, "paths")), e => PathFindings(e, paths, "paths")) <==>
        || (exists path :: PathGone(before, after, path, f))
        || (exists path, verb :: Has(Entries(paths), path) && FoundInOperation(before, after, path, verb, f))
  {
    hide PathFindings, At, Has, WellFormed, Gather, FoundInOperation, PathGone;
    var olds, paths := At(before, "paths"), At(after, "paths");
    GetWellFormed(before, "paths");
    var g := e => PathFindings(e, paths, "paths");
    GatherByKey(olds, g, f);
    forall path | Has(Entries(olds), path)
      ensures f in g(Entry(path, At(olds, path))) <==>
        || PathGone(before, after, path, f)
        || (Has(Entries(paths), path) && exists verb :: FoundInOperation(before, after, path, verb, f))
    {
      PathHas(before, after, path, f);
    }
    forall path, verb ensures FoundInOperation(before, after, path, verb, f) ==> Has(Entries(olds), path) {
      FoundHasMethod(before, after, path, f);
    }
    GoneWasThere(before, after, f);
  }

  lemma GoneWasThere(before: Json, after: Json, f: Finding)
    ensures forall path :: PathGone(before, after, path, f) ==> Has(Entries(At(before, "paths")), path)
  {
    hide At, Has;
  }

  predicate FoundInComponent(before: Json, after: Json, name: string, f: Finding) {
    && Has(Entries(Schemas(before)), name)
    && if Has(Entries(Schemas(after)), name) then
         f in SchemaFindings(At(Schemas(before), name), At(Schemas(after), name), PlaceText(InComponent(name)))
       else f == Finding(SchemaRemoved, PlaceText(InComponent(name)), Name(Text(name)))
  }

  lemma ComponentsHave(before: Json, after: Json, f: Finding)
    requires WellFormed(before)
    ensures var schemas := Schemas(after);
      f in Gather(Entries(Schemas(before)), e => ComponentFindings(e, schemas, "components.schemas")) <==>
        exists name :: FoundInComponent(before, after, name, f)
  {
    hide SchemaFindings, At, Has, WellFormed, Gather, Schemas, Join, PlaceText;
    var olds, schemas := Schemas(before), Schemas(after);
    SchemasWellFormed(before);
    var g := e => ComponentFindings(e, schemas, "components.schemas");
    GatherByKey(olds, g, f);
    forall name | Has(Entries(olds), name) ensures f in g(Entry(name, At(olds, name))) <==> FoundInComponent(before, after, name, f) {
      ComponentText(name);
    }
  }

  lemma SchemasWellFormed(document: Json)
    requires WellFormed(document)
    ensures WellFormed(Schemas(document))
  {
    hide WellFormed, At;
    GetWellFormed(document, "components");
    GetWellFormed(At(document, "components"), "schemas");
  }

  lemma ComponentText(name: string)
    ensures Join("components.schemas", name) == PlaceText(InComponent(name))
  {
    JoinIsDotted("components.schemas", name, "." + name);
    assert "components.schemas" + ("." + name) == "components.schemas." + name;
  }

  // ---------- the theorem on documents ----------

  lemma CodesAre(before: Json, after: Json, path: string, verb: string, f: Finding)
    requires HasOperation(before, path, verb) && HasOperation(after, path, verb)
    ensures StatusDiffers(Operation(before, path, verb), Operation(after, path, verb), OperationText(path, verb), f)
       <==> CodesChanged(before, after, path, verb, f)
  {
    var o, n := At(Operation(before, path, verb), "responses"), At(Operation(after, path, verb), "responses");
    CodesHave(o);
    CodesHave(n);
    SetsDiffer(KeySet(o), KeySet(n));
    hide At, Has, KeySet, OperationText, CodesOnlyIn;
    if f.detail.Codes? {
      CodesOnly(f.detail.removed, before, after, path, verb);
      CodesOnly(f.detail.added, after, before, path, verb);
      assert f == Finding(f.kind, f.location, Codes(f.detail.removed, f.detail.added));
    }
    hide HasOperation, Operation;
  }

  lemma CodesOnly(codes: set<string>, one: Json, other: Json, path: string, verb: string)
    requires HasOperation(one, path, verb) && HasOperation(other, path, verb)
    ensures CodesOnlyIn(codes, one, other, path, verb) <==>
      codes == KeySet(At(Operation(one, path, verb), "responses")) - KeySet(At(Operation(other, path, verb), "responses"))
  {
    var d := KeySet(At(Operation(one, path, verb), "responses")) - KeySet(At(Operation(other, path, verb), "responses"));
    CodesHave(At(Operation(one, path, verb), "responses"));
    CodesHave(At(Operation(other, path, verb), "responses"));
    hide At, Has, KeySet, Operation, HasOperation;
    assert forall code :: code in d <==> HasResponse(one, path, verb, code) && !HasResponse(other, path, verb, code);
    hide HasResponse;
  }

  lemma SetsDiffer(a: set<string>, b: set<string>)
    ensures a != b <==> a - b != {} || b - a != {}
  {
    DifferencesEmptyIff(a, b);
  }

  lemma CodesHave(j: Json)
    ensures forall code :: code in KeySet(j) <==> Has(Entries(j), code)
  {
  }

  lemma OperationWellFormed(document: Json, path: string, verb: string)
    requires WellFormed(document)
    ensures WellFormed(Operation(document, path, verb)) && WellFormed(RequestSchema(Operation(document, path, verb)))
    ensures forall code :: WellFormed(ResponseAt(document, path, verb, code))
  {
    assert WellFormed(Null);
    hide WellFormed, ContentSchema, At;
    GetWellFormed(document, "paths");
    GetWellFormed(At(document, "paths"), path);
    GetWellFormed(At(At(document, "paths"), path), verb);
    var operation := Operation(document, path, verb);
    GetWellFormed(operation, "requestBody");
    GetWellFormed(At(operation, "requestBody"), "content");
    ContentWellFormed(At(At(operation, "requestBody"), "content"));
    GetWellFormed(operation, "responses");
    forall code ensures WellFormed(ResponseAt(document, path, verb, code)) {
      GetWellFormed(At(operation, "responses"), code);
      GetWellFormed(At(At(operation, "responses"), code), "content");
      ContentWellFormed(At(At(At(operation, "responses"), code), "content"));
    }
  }

  lemma ResponsesAre(before: Json, after: Json, path: string, verb: string, code: string, f: Finding)
    requires WellFormed(before) && HasOperation(before, path, verb) && HasOperation(after, path, verb)
    ensures FoundInResponse(Operation(before, path, verb), Operation(after, path, verb), OperationText(path, verb), code, f)
       <==> SchemasDiffer(before, after, InResponse(path, verb, code), f)
  {
    OperationWellFormed(before, path, verb);
    hide SchemaFindings, SchemasDiffer, HasOperation, Operation, WellFormed, At, Has, ResponseSchema, OperationText;
    var place := InResponse(path, verb, code);
    if Present(before, place) && Present(after, place) {
      PlaceIs(before, after, place, f);
    } else {
      NeedsPresence(before, after, place, f);
    }
  }

  lemma NeedsPresence(before: Json, after: Json, place: Place, f: Finding)
    ensures SchemasDiffer(before, after, place, f) ==> Present(before, place) && Present(after, place)
  {
  }

  /** At a place that both documents have, the comparison finds the differences. */
  lemma PlaceIs(before: Json, after: Json, place: Place, f: Finding)
    requires Present(before, place) && Present(after, place) && WellFormed(SchemaAt(before, place))
    ensures f in SchemaFindings(SchemaAt(before, place), SchemaAt(after, place), PlaceText(place)) <==> SchemasDiffer(before, after, place, f)
  {
    PlaceNotEmpty(place);
    hide SchemaFindings, SchemaDiffers, WellFormed, Present, SchemaAt, PlaceText;
    SchemaFindingsExact(SchemaAt(before, place), SchemaAt(after, place), PlaceText(place), f);
  }

  lemma RequestsAre(before: Json, after: Json, path: string, verb: string, f: Finding)
    requires WellFormed(before) && HasOperation(before, path, verb) && HasOperation(after, path, verb)
    ensures f in SchemaFindings(RequestSchema(Operation(before, path, verb)), RequestSchema(Operation(after, path, verb)),
                                OperationText(path, verb) + ".requestBody")
       <==> SchemasDiffer(before, after, InRequest(path, verb), f)
  {
    OperationWellFormed(before, path, verb);
    hide SchemaFindings, SchemasDiffer, HasOperation, Operation, WellFormed, RequestSchema, OperationText;
    PlaceIs(before, after, InRequest(path, verb), f);
  }

  lemma PlaceNotEmpty(place: Place)
    ensures PlaceText(place) != ""
  {
  }

  /** The old operation is found to differ, in one of four ways. */
  ghost predicate OperationDiffers(before: Json, after: Json, path: string, verb: string, f: Finding) {
    || MethodGone(before, after, path, verb, f)
    || CodesChanged(before, after, path, verb, f)
    || (exists code :: SchemasDiffer(before, after, InResponse(path, verb, code), f))
    || SchemasDiffer(before, after, InRequest(path, verb), f)
  }

  lemma OperationsAre(before: Json, after: Json, path: string, verb: string, f: Finding)
    requires WellFormed(before)
    ensures Has(Entries(At(after, "paths")), path) && FoundInOperation(before, after, path, verb, f)
       <==> OperationDiffers(before, after, path, verb, f)
  {
    hide MethodGone, CodesChanged, SchemasDiffer, HasOperation, At, Has, FoundInOperation, WellFormed;
    if HasOperation(before, path, verb) && HasOperation(after, path, verb) {
      BothOperationsAre(before, after, path, verb, f);
    } else {
      NeedsOperations(before, after, path, verb, f);
    }
  }

  lemma BothOperationsAre(before: Json, after: Json, path: string, verb: string, f: Finding)
    requires WellFormed(before) && HasOperation(before, path, verb) && HasOperation(after, path, verb)
    ensures Has(Entries(At(after, "paths")), path)
    ensures FoundInOperation(before, after, path, verb, f) <==> OperationDiffers(before, after, path, verb, f)
  {
    InBoth(before, after, path, verb, f);
    OperationWellFormed(before, path, verb);
    TextNotEmpty(path, verb);
    hide FoundInOperation, HasOperation, WellFormed, StatusDiffers, FoundInResponse, SchemaFindings, OperationFindings, CodesChanged, MethodGone;
    hide SchemasDiffer, Operation, OperationText, RequestSchema, ResponseAt, At, Has;
    OperationHas(Operation(before, path, verb), Operation(after, path, verb), OperationText(path, verb), f);
    CodesAre(before, after, path, verb, f);
    RequestsAre(before, after, path, verb, f);
    ResponsesTogether(before, after, path, verb, f);
  }

  lemma ResponsesTogether(before: Json, after: Json, path: string, verb: string, f: Finding)
    requires WellFormed(before) && HasOperation(before, path, verb) && HasOperation(after, path, verb)
    ensures (exists code :: FoundInResponse(Operation(before, path, verb), Operation(after, path, verb), OperationText(path, verb), code, f))
       <==> exists code :: SchemasDiffer(before, after, InResponse(path, verb, code), f)
  {
    hide *;
    forall code
      ensures FoundInResponse(Operation(before, path, verb), Operation(after, path, verb), OperationText(path, verb), code, f)
        <==> SchemasDiffer(before, after, InResponse(path, verb, code), f)
    {
      ResponsesAre(before, after, path, verb, code, f);
    }
  }

  lemma TextNotEmpty(path: string, verb: string)
    ensures OperationText(path, verb) != ""
  {
  }

  lemma InBoth(before: Json, after: Json, path: string, verb: string, f: Finding)
    requires HasOperation(before, path, verb) && HasOperation(after, path, verb)
    ensures FoundInOperation(before, after, path, verb, f) <==>
      f in OperationFindings(Operation(before, path, verb), Operation(after, path, verb), OperationText(path, verb))
    ensures !MethodGone(before, after, path, verb, f) && Has(Entries(At(after, "paths")), path)
  {
    assert Has(Entries(At(after, "paths")), path);
    hide HasOperation, OperationFindings, At, Has;
  }

  /** Without both operations there is only the removed one to find. */
  lemma NeedsOperations(before: Json, after: Json, path: string, verb: string, f: Finding)
    requires !(HasOperation(before, path, verb) && HasOperation(after, path, verb))
    ensures Has(Entries(At(after, "paths")), path) && FoundInOperation(before, after, path, verb, f) <==> MethodGone(before, after, path, verb, f)
    ensures !CodesChanged(before, after, path, verb, f) && !SchemasDiffer(before, after, InRequest(path, verb), f)
    ensures forall code :: !SchemasDiffer(before, after, InResponse(path, verb, code), f)
  {
    hide OperationFindings, At, Has, SchemaDiffers;
  }

  lemma ComponentIs(before: Json, after: Json, name: string, f: Finding)
    requires WellFormed(before)
    ensures FoundInComponent(before, after, name, f) <==>
      ComponentGone(before, after, name, f) || SchemasDiffer(before, after, InComponent(name), f)
  {
    SchemasWellFormed(before);
    GetWellFormed(Schemas(before), name);
    hide SchemaFindings, SchemasDiffer, WellFormed, At, Has, Schemas, PlaceText;
    var place := InComponent(name);
    if Present(before, place) && Present(after, place) {
      PlaceIs(before, after, place, f);
    } else {
      NeedsPresence(before, after, place, f);
    }
  }

  lemma OperationsTogether(before: Json, after: Json, f: Finding)
    requires WellFormed(before)
    ensures (exists path, verb :: Has(Entries(At(after, "paths")), path) && FoundInOperation(before, after, path, verb, f)) <==>
      || (exists path, verb :: MethodGone(before, after, path, verb, f))
      || (exists path, verb :: CodesChanged(before, after, path, verb, f))
      || (exists path, verb, code :: SchemasDiffer(before, after, InResponse(path, verb, code), f))
      || (exists path, verb :: SchemasDiffer(before, after, InRequest(path, verb), f))
  {
    hide At, Has, Entries, FoundInOperation, OperationDiffers, WellFormed;
    forall path, verb
      ensures Has(Entries(At(after, "paths")), path) && FoundInOperation(before, after, path, verb, f)
        <==> OperationDiffers(before, after, path, verb, f)
    {
      OperationsAre(before, after, path, verb, f);
    }
    WaysToDiffer(before, after, f);
    hide MethodGone, CodesChanged, SchemasDiffer;
  }

  lemma WaysToDiffer(before: Json, after: Json, f: Finding)
    ensures (exists path, verb :: OperationDiffers(before, after, path, verb, f)) <==>
      || (exists path, verb :: MethodGone(before, after, path, verb, f))
      || (exists path, verb :: CodesChanged(before, after, path, verb, f))
      || (exists path, verb, code :: SchemasDiffer(before, after, InResponse(path, verb, code), f))
      || (exists path, verb :: SchemasDiffer(before, after, InRequest(path, verb), f))
  {
    hide MethodGone, CodesChanged, SchemasDiffer;
    if path, verb :| OperationDiffers(before, after, path, verb, f) {
    }
    if path, verb, code :| SchemasDiffer(before, after, InResponse(path, verb, code), f) {
      assert OperationDiffers(before, after, path, verb, f);
    }
    if path, verb :| SchemasDiffer(before, after, InRequest(path, verb), f) {
      assert OperationDiffers(before, after, path, verb, f);
    }
    if path, verb :| MethodGone(before, after, path, verb, f) {
      assert OperationDiffers(before, after, path, verb, f);
    }
    if path, verb :| CodesChanged(before, after, path, verb, f) {
      assert OperationDiffers(before, after, path, verb, f);
    }
  }

  lemma ComponentsTogether(before: Json, after: Json, f: Finding)
    requires WellFormed(before)
    ensures (exists name :: FoundInComponent(before, after, name, f)) <==>
      || (exists name :: ComponentGone(before, after, name, f))
      || (exists name :: SchemasDiffer(before, after, InComponent(name), f))
  {
    hide *;
    forall name
      ensures FoundInComponent(before, after, name, f) <==>
        ComponentGone(before, after, name, f) || SchemasDiffer(before, after, InComponent(name), f)
    {
      ComponentIs(before, after, name, f);
    }
  }

  lemma PlaceKinds(before: Json, after: Json, f: Finding)
    ensures (exists place :: SchemasDiffer(before, after, place, f)) <==>
      || (exists name :: SchemasDiffer(before, after, InComponent(name), f))
      || (exists path, verb, code :: SchemasDiffer(before, after, InResponse(path, verb, code), f))
      || (exists path, verb :: SchemasDiffer(before, after, InRequest(path, verb), f))
  {
    hide *;
    if place :| SchemasDiffer(before, after, place, f) {
      match place
      case InComponent(name) =>
      case InResponse(path, verb, code) =>
      case InRequest(path, verb) =>
    }
  }

  /**
    The report holds a finding if and only if the documents differ in the way and at the place that it names:
    soundness and completeness at once. Nothing of the right side refers to the comparison.
   */
  lemma ReportIsExact(before: Json, after: Json, f: Finding)
    requires WellFormed(before)
    ensures f in DocumentFindings(before, after) <==>
      DocumentsDiffer(before, after, f) || exists place :: SchemasDiffer(before, after, place, f)
  {
    hide Gather, PathFindings, ComponentFindings, PathGone, FoundInOperation, FoundInComponent, ComponentGone, MethodGone, CodesChanged, SchemasDiffer;
    hide Schemas, At, Has, WellFormed;
    PathsHave(before, after, f);
    ComponentsHave(before, after, f);
    OperationsTogether(before, after, f);
    ComponentsTogether(before, after, f);
    PlaceKinds(before, after, f);
  }

  // ---------- which schema stands for a body ----------

  /**
    The schema of a body is that of JSON content, where there is a mapping for it, and otherwise that of the
    first medium that has one.
   */
  lemma BodySchemaIs(content: Json)
    requires content.Dict?
    ensures At(content, "application/json").Dict? ==> ContentSchema(content) == At(At(content, "application/json"), "schema")
    ensures !At(content, "application/json").Dict? ==> FirstMedium(content.entries, ContentSchema(content))
  {
    FirstIs(content.entries);
  }

  /** The body of a request is that of its content, when it has any; the body of a response likewise. */
  lemma BodiesAre(operation: Json, response: Json)
    ensures RequestSchema(operation) == ContentSchema(At(At(operation, "requestBody"), "content"))
    ensures ResponseSchema(response) == ContentSchema(At(response, "content"))
    ensures ContentSchema(Null) == Null
  {
  }

  predicate HasSchema(e: Entry) {
    Has(Entries(e.value), "schema")
  }

  predicate FirstMedium(entries: seq<Entry>, schema: Json) {
    if exists i | 0 <= i < |entries| :: HasSchema(entries[i]) then
      exists i | 0 <= i < |entries| ::
        HasSchema(entries[i]) && schema == At(entries[i].value, "schema") && forall j | 0 <= j < i :: !HasSchema(entries[j])
    else schema == Null
  }

  lemma {:induction false} FirstIs(entries: seq<Entry>)
    ensures FirstMedium(entries, FirstSchema(entries))
  {
    hide At, FirstMedium;
    if entries == [] {
      NoMedium();
    } else {
      FirstIs(entries[1..]);
      if HasSchema(entries[0]) {
        FirstHas(entries);
      } else {
        FirstMediumNext(entries, FirstSchema(entries[1..]));
      }
    }
  }

  lemma NoMedium()
    ensures FirstMedium([], Null)
  {
  }

  lemma FirstHas(entries: seq<Entry>)
    requires entries != [] && HasSchema(entries[0])
    ensures FirstMedium(entries, At(entries[0].value, "schema"))
  {
    hide At, HasSchema;
  }

  lemma FirstMediumNext(entries: seq<Entry>, schema: Json)
    requires entries != [] && !HasSchema(entries[0]) && FirstMedium(entries[1..], schema)
    ensures FirstMedium(entries, schema)
  {
    hide At, HasSchema;
    var rest := entries[1..];
    assert forall i | 0 < i < |entries| :: entries[i] == rest[i - 1];
    if exists i | 0 <= i < |rest| :: HasSchema(rest[i]) {
      var i :| 0 <= i < |rest| && HasSchema(rest[i]) && schema == At(rest[i].value, "schema") && forall j | 0 <= j < i :: !HasSchema(rest[j]);
      assert HasSchema(entries[i + 1]);
    }
  }
}
