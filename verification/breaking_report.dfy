/** The comparison as it runs: one report that every step appends to. */
module BreakingReport {
  import opened Json
  import opened Breaking

  /** Appending twice is appending the sum. */
  lemma Grown(base: seq<Finding>, sum: seq<Finding>, more: seq<Finding>) returns (total: seq<Finding>)
    ensures total == sum + more && base + sum + more == base + total
  {
    total := sum + more;
  }

  class Report {
    var findings: seq<Finding>

    constructor ()
      ensures findings == []
    {
      findings := [];
    }

    method Add(kind: Kind, location: string, detail: Detail)
      modifies this
      ensures findings == old(findings) + [Finding(kind, location, detail)]
    {
      findings := findings + [Finding(kind, location, detail)];
    }

    method CompareMissing(items: seq<Label>, others: seq<Label>, kind: Kind, location: string)
      modifies this
      ensures findings == old(findings) + MissingFindings(items, others, kind, location, |items|)
    {
      var i := 0;
      while i < |items|
        invariant 0 <= i <= |items|
        invariant findings == old(findings) + MissingFindings(items, others, kind, location, i)
      {
        if items[i] !in others && items[i] !in items[..i] {
          Add(kind, location, Name(items[i]));
        }
        i := i + 1;
      }
    }

    method CompareRequired(before: Json, after: Json, location: string)
      modifies this
      ensures findings == old(findings) + RequiredFindings(before, after, location)
    {
      hide MissingFindings, At, Labels, Items, Join;
      var o, n := Labels(Items(At(before, "required"))), Labels(Items(At(after, "required")));
      CompareMissing(o, n, RequiredRemoved, Join(location, "required"));
      CompareMissing(n, o, RequiredAdded, Join(location, "required"));
    }

    method CompareEnum(before: Json, after: Json, location: string)
      modifies this
      ensures findings == old(findings) + EnumFindings(before, after, location)
    {
      var o, n := EnumSet(At(before, "enum")), EnumSet(At(after, "enum"));
      var removed, added := o - n, n - o;
      if removed != {} {
        Add(EnumNarrowed, Join(location, "enum"), Values(removed));
      }
      if added != {} {
        Add(EnumWidened, Join(location, "enum"), Values(added));
      }
    }

    method CompareSchema(before: Json, after: Json, location: string)
      modifies this
      ensures findings == old(findings) + SchemaFindings(before, after, location)
      decreases before != Null, before, 3
    {
      hide MappingFindings;
      if before == Null && after == Null {
        return;
      }
      if !before.Dict? || !after.Dict? {
        if !Equal(before, after) {
          Add(TypeChanged, location, Plain);
        }
        return;
      }
      CompareMapping(before, after, location);
    }

    method CompareHead(before: Json, after: Json, location: string)
      modifies this
      ensures findings == old(findings) + HeadFindings(before, after, location)
    {
      hide RequiredFindings, Equal, SchemaType, At;
      if !Equal(At(before, "$ref"), At(after, "$ref")) {
        Add(TypeChanged, location, Plain);
      }
      if SchemaType(before) != SchemaType(after) {
        Add(TypeChanged, location, Plain);
      }
      CompareRequired(before, after, location);
    }

    method CompareMapping(before: Json, after: Json, location: string)
      requires before.Dict? && after.Dict?
      modifies this
      ensures findings == old(findings) + MappingFindings(before, after, location)
      decreases true, before, 2
    {
      hide SchemaFindings, PropertyFindings, ExtraFindings, ListFindings, EnumFindings, HeadFindings, At, Join;
      ghost var base := findings;
      CompareHead(before, after, location);
      CompareProperties(At(before, "properties"), At(after, "properties"), location);
      ghost var sum := Grown(base, HeadFindings(before, after, location),
        PropertyFindings(At(before, "properties"), At(after, "properties"), location, |Entries(At(before, "properties"))|));
      CompareEnum(before, after, location);
      sum := Grown(base, sum, EnumFindings(before, after, location));
      CompareSchema(At(before, "items"), At(after, "items"), Join(location, "items"));
      sum := Grown(base, sum, SchemaFindings(At(before, "items"), At(after, "items"), Join(location, "items")));
      CompareExtras(before, after, Join(location, "additionalProperties"));
      sum := Grown(base, sum, ExtraFindings(before, after, Join(location, "additionalProperties")));
      CompareSchemaList(At(before, "allOf"), At(after, "allOf"), Join(location, "allOf"));
      sum := Grown(base, sum, ListFindings(At(before, "allOf"), At(after, "allOf"), Join(location, "allOf")));
      CompareSchemaList(At(before, "anyOf"), At(after, "anyOf"), Join(location, "anyOf"));
      sum := Grown(base, sum, ListFindings(At(before, "anyOf"), At(after, "anyOf"), Join(location, "anyOf")));
      CompareSchemaList(At(before, "oneOf"), At(after, "oneOf"), Join(location, "oneOf"));
      sum := Grown(base, sum, ListFindings(At(before, "oneOf"), At(after, "oneOf"), Join(location, "oneOf")));
    }

    method CompareProperties(before: Json, after: Json, location: string)
      modifies this
      ensures findings == old(findings) + PropertyFindings(before, after, location, |Entries(before)|)
      decreases before != Null, before, 1
    {
      hide SchemaFindings, At, Join;
      var props := Entries(before);
      var i := 0;
      while i < |props|
        invariant 0 <= i <= |props|
        invariant findings == old(findings) + PropertyFindings(before, after, location, i)
      {
        var here := Join(location, "properties." + props[i].key);
        if Has(Entries(after), props[i].key) {
          CompareSchema(props[i].value, At(after, props[i].key), here);
        } else {
          Add(FieldRemoved, here, Name(Text(props[i].key)));
        }
        i := i + 1;
      }
    }

    method CompareExtras(before: Json, after: Json, location: string)
      requires before.Dict?
      modifies this
      ensures findings == old(findings) + ExtraFindings(before, after, location)
      decreases true, before, 1
    {
      hide SchemaFindings;
      var o, n := At(before, "additionalProperties"), At(after, "additionalProperties");
      if o.Dict? || n.Dict? {
        CompareSchema(ExtraSchema(before), ExtraSchema(after), location);
      } else if !Equal(o, n) {
        Add(TypeChanged, location, Plain);
      }
    }

    method CompareSchemaList(before: Json, after: Json, location: string)
      modifies this
      ensures findings == old(findings) + ListFindings(before, after, location)
      decreases before != Null, before, 1
    {
      hide SchemaFindings;
      var o, n := Items(before), Items(after);
      if |o| != |n| {
        Add(TypeChanged, location, Plain);
        return;
      }
      var i := 0;
      while i < |o|
        invariant 0 <= i <= |o|
        invariant findings == old(findings) + MemberFindings(before, after, location, i)
      {
        CompareSchema(o[i], n[i], Join(location, Decimal(i)));
        i := i + 1;
      }
    }

    method CompareResponses(before: Json, after: Json, location: string)
      modifies this
      ensures var o, n := At(before, "responses"), At(after, "responses");
              findings == old(findings) + StatusFindings(o, n, Join(location, "responses"))
                + Gather(Entries(o), e => BodyFindings(e, n, Join(location, "responses")))
    {
      hide SchemaFindings, ResponseSchema, At, Join, Gather;
      var o, n := At(before, "responses"), At(after, "responses");
      var here := Join(location, "responses");
      var removed, added := KeySet(o) - KeySet(n), KeySet(n) - KeySet(o);
      if removed != {} || added != {} {
        Add(StatusCodeChanged, here, Codes(removed, added));
      }
      ghost var base := findings;
      ghost var f := e => BodyFindings(e, n, here);
      GatherNone(Entries(o), f);
      var i := 0;
      while i < |Entries(o)|
        invariant 0 <= i <= |Entries(o)|
        invariant findings == base + Gather(Entries(o)[..i], f)
      {
        var e := Entries(o)[i];
        GatherNext(Entries(o), i, f);
        if Has(Entries(n), e.key) {
          CompareSchema(ResponseSchema(e.value), ResponseSchema(At(n, e.key)), Join(here, e.key + ".content"));
        }
        i := i + 1;
      }
      assert Entries(o)[..i] == Entries(o);
    }

    method CompareOperation(before: Json, after: Json, location: string)
      modifies this
      ensures findings == old(findings) + OperationFindings(before, after, location)
    {
      hide SchemaFindings, StatusFindings, Gather;
      CompareResponses(before, after, location);
      CompareSchema(RequestSchema(before), RequestSchema(after), Join(location, "requestBody"));
    }

    method ComparePathItem(before: Json, after: Json, location: string)
      modifies this
      ensures findings == old(findings) + Gather(Entries(before), m => MethodFindings(m, after, location))
    {
      hide OperationFindings, At, Join, Gather;
      ghost var f := m => MethodFindings(m, after, location);
      GatherNone(Entries(before), f);
      var i := 0;
      while i < |Entries(before)|
        invariant 0 <= i <= |Entries(before)|
        invariant findings == old(findings) + Gather(Entries(before)[..i], f)
      {
        var e := Entries(before)[i];
        GatherNext(Entries(before), i, f);
        if e.key in HTTP_METHODS {
          if Has(Entries(after), e.key) {
            CompareOperation(e.value, At(after, e.key), Join(location, e.key));
          } else {
            Add(MethodRemoved, Join(location, e.key), Name(Text(e.key)));
          }
        }
        i := i + 1;
      }
      assert Entries(before)[..i] == Entries(before);
    }

    method ComparePaths(before: Json, after: Json, location: string)
      modifies this
      ensures findings == old(findings) + Gather(Entries(before), e => PathFindings(e, after, location))
    {
      hide Gather, At, Join, MethodFindings;
      ghost var f := e => PathFindings(e, after, location);
      GatherNone(Entries(before), f);
      var i := 0;
      while i < |Entries(before)|
        invariant 0 <= i <= |Entries(before)|
        invariant findings == old(findings) + Gather(Entries(before)[..i], f)
      {
        var e := Entries(before)[i];
        GatherNext(Entries(before), i, f);
        var here := Join(location, e.key);
        if Has(Entries(after), e.key) {
          ComparePathItem(e.value, At(after, e.key), here);
        } else {
          Add(PathRemoved, here, Name(Text(e.key)));
        }
        i := i + 1;
      }
      assert Entries(before)[..i] == Entries(before);
    }

    method CompareSchemas(before: Json, after: Json, location: string)
      modifies this
      ensures findings == old(findings) + Gather(Entries(before), e => ComponentFindings(e, after, location))
    {
      hide SchemaFindings, At, Join, Gather;
      ghost var f := e => ComponentFindings(e, after, location);
      GatherNone(Entries(before), f);
      var i := 0;
      while i < |Entries(before)|
        invariant 0 <= i <= |Entries(before)|
        invariant findings == old(findings) + Gather(Entries(before)[..i], f)
      {
        var e := Entries(before)[i];
        GatherNext(Entries(before), i, f);
        var here := Join(location, e.key);
        if Has(Entries(after), e.key) {
          CompareSchema(e.value, At(after, e.key), here);
        } else {
          Add(SchemaRemoved, here, Name(Text(e.key)));
        }
        i := i + 1;
      }
      assert Entries(before)[..i] == Entries(before);
    }
  }

  lemma GatherNone(entries: seq<Entry>, f: Entry -> seq<Finding>)
    ensures Gather(entries[..0], f) == []
  {
  }

  lemma GatherNext(entries: seq<Entry>, i: nat, f: Entry -> seq<Finding>)
    requires i < |entries|
    ensures Gather(entries[..i + 1], f) == Gather(entries[..i], f) + f(entries[i])
  {
    assert entries[..i + 1][..i] == entries[..i];
  }

  /** The whole comparison: it reports nothing exactly when the documents are compatible. */
  method FindBreakingChanges(before: Json, after: Json) returns (findings: seq<Finding>)
    ensures findings == DocumentFindings(before, after)
    ensures findings == [] <==> DocumentCompatible(before, after)
  {
    hide PathFindings, ComponentFindings, DocumentCompatible, Gather, Schemas, At;
    var report := new Report();
    report.ComparePaths(At(before, "paths"), At(after, "paths"), "paths");
    report.CompareSchemas(Schemas(before), Schemas(after), "components.schemas");
    findings := report.findings;
    ReportEmptyIff(before, after);
  }
}
