/** "No breaking changes" is a preorder on schemas and on whole documents. */
module BreakingLaws {
  import opened Json
  import opened Breaking

  lemma {:induction false} CompatibleReflexive(j: Json)
    requires WellFormed(j)
    ensures Compatible(j, j)
    decreases j != Null, j, 3
  {
    hide MappingsCompatible;
    EqualReflexive(j);
    if j.Dict? {
      MappingReflexive(j);
    }
  }

  lemma {:induction false} MappingReflexive(j: Json)
    requires WellFormed(j) && j.Dict?
    ensures MappingsCompatible(j, j)
    decreases true, j, 2
  {
    hide Compatible, PropertiesCompatible, ExtrasCompatible, ListCompatible, WellFormed, Equal, At;
    GetWellFormed(j, "$ref");
    EqualReflexive(At(j, "$ref"));
    GetWellFormed(j, "properties");
    PropertiesReflexive(At(j, "properties"));
    GetWellFormed(j, "items");
    CompatibleReflexive(At(j, "items"));
    ExtrasReflexive(j);
    GetWellFormed(j, "allOf");
    ListReflexive(At(j, "allOf"));
    GetWellFormed(j, "anyOf");
    ListReflexive(At(j, "anyOf"));
    GetWellFormed(j, "oneOf");
    ListReflexive(At(j, "oneOf"));
  }

  lemma {:induction false} PropertiesReflexive(props: Json)
    requires WellFormed(props)
    ensures PropertiesCompatible(props, props)
    decreases props != Null, props, 1
  {
    hide Compatible;
    forall i | 0 <= i < |Entries(props)| ensures KeptCompatible(Entries(props)[i], props) {
      GetOwn(Entries(props), i);
      CompatibleReflexive(Entries(props)[i].value);
    }
  }

  lemma {:induction false} ExtrasReflexive(j: Json)
    requires WellFormed(j) && j.Dict?
    ensures ExtrasCompatible(j, j)
    decreases true, j, 1
  {
    hide Compatible;
    GetWellFormed(j, "additionalProperties");
    CompatibleReflexive(At(j, "additionalProperties"));
    EqualReflexive(At(j, "additionalProperties"));
  }

  lemma {:induction false} ListReflexive(list: Json)
    requires WellFormed(list)
    ensures ListCompatible(list, list)
    decreases list != Null, list, 1
  {
    hide Compatible;
    forall i | 0 <= i < |Items(list)| ensures Compatible(Items(list)[i], Items(list)[i]) {
      CompatibleReflexive(Items(list)[i]);
    }
  }

  lemma {:induction false} CompatibleTransitive(a: Json, b: Json, c: Json)
    requires Compatible(a, b) && Compatible(b, c)
    ensures Compatible(a, c)
    decreases a != Null, a, 3
  {
    hide MappingsCompatible;
    if a.Dict? && b.Dict? && c.Dict? {
      MappingTransitive(a, b, c);
    } else {
      assert !a.Dict? && !b.Dict? && !c.Dict?;
      EqualTransitive(a, b, c);
    }
  }

  lemma {:induction false} MappingTransitive(a: Json, b: Json, c: Json)
    requires a.Dict? && b.Dict? && c.Dict? && MappingsCompatible(a, b) && MappingsCompatible(b, c)
    ensures MappingsCompatible(a, c)
    decreases true, a, 2
  {
    hide Compatible, ExtrasCompatible, ListCompatible, PropertiesCompatible, HeadCompatible, At;
    HeadTransitive(a, b, c);
    PropertiesTransitive(At(a, "properties"), At(b, "properties"), At(c, "properties"));
    CompatibleTransitive(At(a, "items"), At(b, "items"), At(c, "items"));
    ExtrasTransitive(a, b, c);
    ListTransitive(At(a, "allOf"), At(b, "allOf"), At(c, "allOf"));
    ListTransitive(At(a, "anyOf"), At(b, "anyOf"), At(c, "anyOf"));
    ListTransitive(At(a, "oneOf"), At(b, "oneOf"), At(c, "oneOf"));
  }

  lemma HeadTransitive(a: Json, b: Json, c: Json)
    requires HeadCompatible(a, b) && HeadCompatible(b, c)
    ensures HeadCompatible(a, c)
  {
    hide Equal, At;
    EqualTransitive(At(a, "$ref"), At(b, "$ref"), At(c, "$ref"));
  }

  lemma {:induction false} PropertiesTransitive(a: Json, b: Json, c: Json)
    requires PropertiesCompatible(a, b) && PropertiesCompatible(b, c)
    ensures PropertiesCompatible(a, c)
    decreases a != Null, a, 1
  {
    hide Compatible;
    forall i | 0 <= i < |Entries(a)| ensures KeptCompatible(Entries(a)[i], c) {
      var e := Entries(a)[i];
      assert KeptCompatible(e, b);
      var j :| 0 <= j < |Entries(b)| && Entries(b)[j].key == e.key && Entries(b)[j].value == At(b, e.key);
      assert KeptCompatible(Entries(b)[j], c);
      CompatibleTransitive(e.value, At(b, e.key), At(c, e.key));
    }
  }

  lemma {:induction false} ExtrasTransitive(a: Json, b: Json, c: Json)
    requires a.Dict? && b.Dict? && c.Dict? && ExtrasCompatible(a, b) && ExtrasCompatible(b, c)
    ensures ExtrasCompatible(a, c)
    decreases true, a, 1
  {
    hide Compatible;
    var p, q, r := At(a, "additionalProperties"), At(b, "additionalProperties"), At(c, "additionalProperties");
    if p.Dict? && q.Dict? && r.Dict? {
      CompatibleTransitive(p, q, r);
    } else {
      assert !p.Dict? && !q.Dict? && !r.Dict?;
      EqualTransitive(p, q, r);
    }
  }

  lemma {:induction false} ListTransitive(a: Json, b: Json, c: Json)
    requires ListCompatible(a, b) && ListCompatible(b, c)
    ensures ListCompatible(a, c)
    decreases a != Null, a, 1
  {
    hide Compatible;
    forall i | 0 <= i < |Items(a)| ensures Compatible(Items(a)[i], Items(c)[i]) {
      CompatibleTransitive(Items(a)[i], Items(b)[i], Items(c)[i]);
    }
  }

  // ---------- documents ----------

  lemma ContentWellFormed(content: Json)
    requires WellFormed(content)
    ensures WellFormed(ContentSchema(content))
  {
    if content.Dict? {
      GetWellFormed(content, "application/json");
      GetWellFormed(At(content, "application/json"), "schema");
      FirstWellFormed(content.entries);
    }
  }

  lemma {:induction false} FirstWellFormed(entries: seq<Entry>)
    requires forall i | 0 <= i < |entries| :: WellFormed(entries[i].value)
    ensures WellFormed(FirstSchema(entries))
  {
    if entries != [] {
      GetWellFormed(entries[0].value, "schema");
      FirstWellFormed(entries[1..]);
    }
  }

  lemma OperationReflexive(operation: Json)
    requires WellFormed(operation)
    ensures OperationCompatible(operation, operation)
  {
    hide Compatible, ContentSchema, KeySet;
    GetWellFormed(operation, "responses");
    GetWellFormed(operation, "requestBody");
    GetWellFormed(At(operation, "requestBody"), "content");
    ContentWellFormed(At(At(operation, "requestBody"), "content"));
    CompatibleReflexive(RequestSchema(operation));
    var o := At(operation, "responses");
    forall i | 0 <= i < |Entries(o)| ensures BodyCompatible(Entries(o)[i], o) {
      var e := Entries(o)[i];
      GetOwn(Entries(o), i);
      GetWellFormed(e.value, "content");
      ContentWellFormed(At(e.value, "content"));
      CompatibleReflexive(ResponseSchema(e.value));
    }
  }

  lemma OperationTransitive(a: Json, b: Json, c: Json)
    requires OperationCompatible(a, b) && OperationCompatible(b, c)
    ensures OperationCompatible(a, c)
  {
    hide Compatible, ResponseSchema, RequestSchema;
    CompatibleTransitive(RequestSchema(a), RequestSchema(b), RequestSchema(c));
    var o, n, m := At(a, "responses"), At(b, "responses"), At(c, "responses");
    forall i | 0 <= i < |Entries(o)| ensures BodyCompatible(Entries(o)[i], m) {
      var e := Entries(o)[i];
      assert e.key in KeySet(o);
      assert e.key in KeySet(n);
      var j :| 0 <= j < |Entries(n)| && Entries(n)[j].key == e.key && Entries(n)[j].value == At(n, e.key);
      assert BodyCompatible(e, n) && BodyCompatible(Entries(n)[j], m);
      if Has(Entries(m), e.key) {
        CompatibleTransitive(ResponseSchema(e.value), ResponseSchema(At(n, e.key)), ResponseSchema(At(m, e.key)));
      }
    }
  }

  lemma PathReflexive(paths: Json, i: nat)
    requires WellFormed(paths) && i < |Entries(paths)|
    ensures PathCompatible(Entries(paths)[i], paths)
  {
    hide OperationCompatible;
    var item := Entries(paths)[i].value;
    GetOwn(Entries(paths), i);
    forall j | 0 <= j < |Entries(item)| ensures MethodCompatible(Entries(item)[j], item) {
      GetOwn(Entries(item), j);
      OperationReflexive(Entries(item)[j].value);
    }
  }

  /** Comparing a document with itself reports nothing. */
  lemma ReportReflexive(d: Json)
    requires WellFormed(d)
    ensures DocumentFindings(d, d) == []
  {
    ReportEmptyIff(d, d);
    hide PathCompatible, KeptCompatible, DocumentFindings, Schemas;
    GetWellFormed(d, "paths");
    SchemasWellFormed(d);
    PropertiesReflexive(Schemas(d));
    forall i | 0 <= i < |Entries(At(d, "paths"))| ensures PathCompatible(Entries(At(d, "paths"))[i], At(d, "paths")) {
      PathReflexive(At(d, "paths"), i);
    }
  }

  lemma SchemasWellFormed(d: Json)
    requires WellFormed(d)
    ensures WellFormed(Schemas(d))
  {
    GetWellFormed(d, "components");
    GetWellFormed(At(d, "components"), "schemas");
  }

  lemma PathTransitive(e: Entry, b: Json, c: Json)
    requires PathCompatible(e, b)
    requires Has(Entries(b), e.key) && PathCompatible(Entry(e.key, At(b, e.key)), c)
    ensures PathCompatible(e, c)
  {
    hide OperationCompatible;
    var p, q := At(b, e.key), At(c, e.key);
    forall i | 0 <= i < |Entries(e.value)| ensures MethodCompatible(Entries(e.value)[i], q) {
      var m := Entries(e.value)[i];
      assert MethodCompatible(m, p);
      if m.key in HTTP_METHODS {
        var j :| 0 <= j < |Entries(p)| && Entries(p)[j].key == m.key && Entries(p)[j].value == At(p, m.key);
        assert MethodCompatible(Entries(p)[j], q);
        OperationTransitive(m.value, At(p, m.key), At(q, m.key));
      }
    }
  }

  /** Two clean comparisons in a row make a clean comparison of the ends. */
  lemma ReportTransitive(a: Json, b: Json, c: Json)
    requires DocumentFindings(a, b) == [] && DocumentFindings(b, c) == []
    ensures DocumentFindings(a, c) == []
  {
    ReportEmptyIff(a, b);
    ReportEmptyIff(b, c);
    ReportEmptyIff(a, c);
    hide PathCompatible, KeptCompatible, DocumentFindings, Schemas;
    PropertiesTransitive(Schemas(a), Schemas(b), Schemas(c));
    var p, q, r := At(a, "paths"), At(b, "paths"), At(c, "paths");
    forall i | 0 <= i < |Entries(p)| ensures PathCompatible(Entries(p)[i], r) {
      var e := Entries(p)[i];
      assert PathCompatible(e, q);
      KeptPath(e, q);
      var j :| 0 <= j < |Entries(q)| && Entries(q)[j].key == e.key && Entries(q)[j].value == At(q, e.key);
      assert Entries(q)[j] == Entry(e.key, At(q, e.key));
      PathTransitive(e, q, r);
    }
  }

  lemma KeptPath(e: Entry, after: Json)
    requires PathCompatible(e, after)
    ensures Has(Entries(after), e.key)
  {
  }
}
