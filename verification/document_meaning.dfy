/** What a clean report says of documents: their responses, and their request bodies. */
module DocumentMeaning {
  import opened Json
  import opened Breaking
  import opened SchemaMeaning
  import opened SchemaSoundness

  lemma OperationKept(before: Json, after: Json, path: string, verb: string)
    requires DocumentCompatible(before, after) && HasOperation(before, path, verb)
    ensures HasOperation(after, path, verb)
    ensures OperationCompatible(Operation(before, path, verb), Operation(after, path, verb))
  {
    hide OperationCompatible, PropertiesCompatible;
    var p, q := At(before, "paths"), At(after, "paths");
    var i :| 0 <= i < |Entries(p)| && Entries(p)[i].key == path && Entries(p)[i].value == At(p, path);
    assert PathCompatible(Entries(p)[i], q);
    var item := Entries(p)[i].value;
    var j :| 0 <= j < |Entries(item)| && Entries(item)[j].key == verb && Entries(item)[j].value == At(item, verb);
    assert MethodCompatible(Entries(item)[j], At(q, path));
  }

  lemma ResponseKept(before: Json, after: Json, code: string)
    requires OperationCompatible(before, after) && Has(Entries(At(before, "responses")), code)
    ensures Has(Entries(At(after, "responses")), code)
    ensures Compatible(ResponseSchema(At(At(before, "responses"), code)), ResponseSchema(At(At(after, "responses"), code)))
  {
    hide Compatible, ResponseSchema, RequestSchema;
    var o, n := At(before, "responses"), At(after, "responses");
    var i :| 0 <= i < |Entries(o)| && Entries(o)[i].key == code && Entries(o)[i].value == At(o, code);
    assert BodyCompatible(Entries(o)[i], n);
    assert code in KeySet(o);
    assert code in KeySet(n);
  }

  /** What can be read off the components, besides the clean report, for the scope to hold. */
  ghost predicate ComponentsGuarded(scope: Scope) {
    && (forall name | name !in scope.unguarded && (Has(Entries(scope.olds), name) || (scope.way == Request && Has(Entries(scope.news), name))) ::
          && Has(Entries(scope.olds), name) && ValidSchema(At(scope.olds, name)) && ValidSchema(At(scope.news, name))
          && Guarded(scope, At(scope.olds, name), At(scope.news, name)))
    && (forall name | name !in scope.changed && (Has(Entries(scope.olds), name) || Has(Entries(scope.news), name)) ::
          && Has(Entries(scope.olds), name) && ValidSchema(At(scope.olds, name)) && ValidSchema(At(scope.news, name))
          && Compatible(At(scope.news, name), At(scope.olds, name)) && Steady(scope.changed, At(scope.olds, name), At(scope.news, name)))
  }

  predicate ScopeOf(scope: Scope, way: Way, before: Json, after: Json) {
    scope.way == way && scope.olds == Schemas(before) && scope.news == Schemas(after)
  }

  lemma ScopeHolds(scope: Scope)
    requires PropertiesCompatible(scope.olds, scope.news) && ComponentsGuarded(scope)
    ensures Holds(scope)
  {
    hide Compatible, ValidSchema, Guarded, Steady, PropertiesCompatible;
    forall name | Has(Entries(scope.olds), name)
      ensures Has(Entries(scope.news), name) && Compatible(At(scope.olds, name), At(scope.news, name))
    {
      KeptComponent(scope.olds, scope.news, name);
    }
  }

  /** Two schemas, at corresponding places, that are valid and guarded. */
  predicate PairGuarded(scope: Scope, before: Json, after: Json) {
    ValidSchema(before) && ValidSchema(after) && Guarded(scope, before, after)
  }

  /**
    A clean report keeps the meaning of every response: each answer that is valid under the new document
    was valid under the old one, references and all. The guard concerns the components that are not excluded.
   */
  lemma ResponsesKeepTheirMeaning(scope: Scope, before: Json, after: Json, path: string, verb: string, code: string, v: Json)
    requires DocumentFindings(before, after) == [] && HasResponse(before, path, verb, code)
    requires ScopeOf(scope, Response, before, after) && ComponentsGuarded(scope)
    requires PairGuarded(scope, ResponseAt(before, path, verb, code), ResponseAt(after, path, verb, code))
    ensures HasResponse(after, path, verb, code)
    ensures Accepted(Schemas(after), ResponseAt(after, path, verb, code), v)
        ==> Accepted(Schemas(before), ResponseAt(before, path, verb, code), v)
  {
    ReportEmptyIff(before, after);
    hide ValidSchema, Guarded, Compatible, Accepts, ResponseSchema, DocumentFindings, ComponentsGuarded;
    OperationKept(before, after, path, verb);
    ResponseKept(Operation(before, path, verb), Operation(after, path, verb), code);
    ScopeHolds(scope);
    var o, n := ResponseAt(before, path, verb, code), ResponseAt(after, path, verb, code);
    if m: nat :| AcceptedFrom(m, Schemas(after), n, v) {
      NewIsOld(scope, false, o, n, v, m);
    }
  }

  /**
    The same report lets every request stay valid: each body that was valid under the old document is valid
    under the new one, where an added property goes with the old rule for extra ones. Where extra properties
    were forbidden, any property may be added.
   */
  lemma RequestsStayValid(scope: Scope, before: Json, after: Json, path: string, verb: string, v: Json)
    requires DocumentFindings(before, after) == [] && HasOperation(before, path, verb)
    requires ScopeOf(scope, Request, before, after) && ComponentsGuarded(scope)
    requires PairGuarded(scope, RequestSchema(Operation(before, path, verb)), RequestSchema(Operation(after, path, verb)))
    ensures HasOperation(after, path, verb)
    ensures Accepted(Schemas(before), RequestSchema(Operation(before, path, verb)), v)
        ==> Accepted(Schemas(after), RequestSchema(Operation(after, path, verb)), v)
  {
    ReportEmptyIff(before, after);
    hide ValidSchema, Guarded, Compatible, Accepts, RequestSchema, DocumentFindings, ComponentsGuarded;
    OperationKept(before, after, path, verb);
    ScopeHolds(scope);
    var o, n := RequestSchema(Operation(before, path, verb)), RequestSchema(Operation(after, path, verb));
    if m: nat :| AcceptedFrom(m, Schemas(before), o, v) {
      OldIsNew(scope, false, o, n, v, m);
    }
  }

  // ---------- clean both ways ----------

  /** Nothing is excluded as changed; what is guarded does not matter. */
  function Unscoped(olds: Json, news: Json): (scope: Scope)
    ensures scope.changed == {} && scope.olds == olds && scope.news == news
  {
    Scope(Response, olds, news, set i | 0 <= i < |Entries(olds)| :: Entries(olds)[i].key, {})
  }

  lemma LinkedSame(scope: Scope, before: Json, after: Json)
    requires scope.changed == {} && ValidSchema(before) && ValidSchema(after)
    requires Compatible(before, after) && Compatible(after, before) && Steady({}, before, after)
    ensures Linked(scope, true, before, after)
  {
    hide Compatible, ValidSchema, Steady;
  }

  lemma SteadyComponent(olds: Json, news: Json, name: string)
    requires SteadyProperties({}, olds, news) && Has(Entries(olds), name)
    ensures Steady({}, At(olds, name), At(news, name))
  {
    hide Steady;
    var i :| 0 <= i < |Entries(olds)| && Entries(olds)[i].key == name && Entries(olds)[i].value == At(olds, name);
  }

  lemma EverythingHolds(olds: Json, news: Json)
    requires PropertiesCompatible(olds, news) && PropertiesCompatible(news, olds)
    requires ValidProperties(olds) && ValidProperties(news) && SteadyProperties({}, olds, news)
    ensures Holds(Unscoped(olds, news))
  {
    hide Compatible, ValidSchema, Guarded, Steady, PropertiesCompatible, ValidProperties;
    var scope := Unscoped(olds, news);
    forall name | Has(Entries(olds), name) || Has(Entries(news), name)
      ensures Has(Entries(olds), name) && Has(Entries(news), name) && Linked(scope, true, At(olds, name), At(news, name))
    {
      if Has(Entries(olds), name) {
        KeptComponent(olds, news, name);
        KeptComponent(news, olds, name);
      } else {
        KeptComponent(news, olds, name);
        KeptComponent(olds, news, name);
      }
      ValidComponent(olds, name);
      ValidComponent(news, name);
      SteadyComponent(olds, news, name);
      LinkedSame(scope, At(olds, name), At(news, name));
    }
    hide Linked;
  }

  /**
    Valid schemas that compare clean both ways and keep their constants, in documents whose components do,
    accept the same values.
   */
  lemma BothWays(olds: Json, news: Json, before: Json, after: Json, v: Json)
    requires PropertiesCompatible(olds, news) && PropertiesCompatible(news, olds)
    requires ValidProperties(olds) && ValidProperties(news) && ValidSchema(before) && ValidSchema(after)
    requires Compatible(before, after) && Compatible(after, before)
    requires SteadyProperties({}, olds, news) && Steady({}, before, after)
    ensures Accepted(olds, before, v) <==> Accepted(news, after, v)
  {
    hide *;
    var scope := Unscoped(olds, news);
    EverythingHolds(olds, news);
    LinkedSame(scope, before, after);
    AcceptedSame(scope, before, after, v);
  }

  lemma AcceptedSame(scope: Scope, before: Json, after: Json, v: Json)
    requires Holds(scope) && Linked(scope, true, before, after)
    ensures Accepted(scope.olds, before, v) <==> Accepted(scope.news, after, v)
  {
    hide Holds, Linked, AcceptedFrom;
    forall m: nat ensures AcceptedFrom(m, scope.olds, before, v) <==> AcceptedFrom(m, scope.news, after, v) {
      if AcceptedFrom(m, scope.olds, before, v) {
        OldIsNew(scope, true, before, after, v, m);
      }
      if AcceptedFrom(m, scope.news, after, v) {
        NewIsOld(scope, true, before, after, v, m);
      }
    }
  }

  /**
    When the reverse report is clean too and the constants stay, a request body means the same in both documents:
    closed schemas and oneOf included.
   */
  lemma RequestsKeepTheirMeaning(before: Json, after: Json, path: string, verb: string, v: Json)
    requires DocumentFindings(before, after) == [] && DocumentFindings(after, before) == []
    requires HasOperation(before, path, verb)
    requires ValidProperties(Schemas(before)) && ValidProperties(Schemas(after))
    requires ValidSchema(RequestSchema(Operation(before, path, verb))) && ValidSchema(RequestSchema(Operation(after, path, verb)))
    requires SteadyProperties({}, Schemas(before), Schemas(after))
    requires Steady({}, RequestSchema(Operation(before, path, verb)), RequestSchema(Operation(after, path, verb)))
    ensures Accepted(Schemas(before), RequestSchema(Operation(before, path, verb)), v)
       <==> Accepted(Schemas(after), RequestSchema(Operation(after, path, verb)), v)
  {
    ReportEmptyIff(before, after);
    ReportEmptyIff(after, before);
    hide ValidSchema, Compatible, ContentSchema, DocumentFindings, RequestSchema, Accepted;
    OperationKept(before, after, path, verb);
    OperationKept(after, before, path, verb);
    BothWays(Schemas(before), Schemas(after), RequestSchema(Operation(before, path, verb)), RequestSchema(Operation(after, path, verb)), v);
  }
}
