/** What a clean report says of two schemas: whose values the other one accepts, and under which guard. */
module SchemaSoundness {
  import opened Json
  import opened Breaking
  import opened SchemaMeaning
  import opened SchemaUnions

  predicate RefersOutside(reference: Json, names: set<string>) {
    !(reference.Str? && REF_PREFIX <= reference.s && reference.s[|REF_PREFIX|..] in names)
  }

  /** Constants are not compared, so the guards look at them: whoever asks for one finds the same on the other side. */
  predicate ConstFrom(schema: Json, other: Json) {
    Has(Entries(schema), "const") ==> Has(Entries(other), "const") && At(schema, "const") == At(other, "const")
  }

  /** No reference anywhere in the schema leads to one of the names, and every constant stays. */
  predicate Steady(names: set<string>, before: Json, after: Json)
    decreases before != Null, before, 3
  {
    before.Dict? && after.Dict? ==>
      && ConstFrom(before, after) && ConstFrom(after, before)
      && RefersOutside(At(before, "$ref"), names)
      && SteadyProperties(names, At(before, "properties"), At(after, "properties"))
      && Steady(names, At(before, "items"), At(after, "items"))
      && Steady(names, At(before, "additionalProperties"), At(after, "additionalProperties"))
      && SteadyList(names, At(before, "allOf"), At(after, "allOf"))
      && SteadyList(names, At(before, "anyOf"), At(after, "anyOf"))
      && SteadyList(names, At(before, "oneOf"), At(after, "oneOf"))
  }

  predicate SteadyProperties(names: set<string>, before: Json, after: Json)
    decreases before != Null, before, 1
  {
    forall i | 0 <= i < |Entries(before)| :: Steady(names, Entries(before)[i].value, At(after, Entries(before)[i].key))
  }

  predicate SteadyList(names: set<string>, before: Json, after: Json)
    decreases before != Null, before, 1
  {
    forall i | 0 <= i < |Items(before)| && i < |Items(after)| :: Steady(names, Items(before)[i], Items(after)[i])
  }

  // ---------- the guard ----------

  /** Responses: what is valid now was valid before. Requests: what was valid before is still valid. */
  datatype Way = Response | Request

  /**
    The two documents' components, the way that matters, and which components a guarded schema must not refer
    to: those that are not guarded themselves and, within a oneOf that relies on it, those that do not compare
    clean both ways or change a constant.
   */
  datatype Scope = Scope(way: Way, olds: Json, news: Json, unguarded: set<string>, changed: set<string>)

  /** Anything but a mapping or false accepts every value. */
  predicate Restrictive(schema: Json) {
    schema.Dict? || schema == Bool(false)
  }

  /**
    The guard of the theorem on one clean report. A constant must be there where the values arrive from, an
    added property must go with the old rule for extra ones, and a oneOf must be one in which no value is
    claimed twice or whose members compare clean both ways.
   */
  predicate Guarded(scope: Scope, before: Json, after: Json)
    decreases before != Null, before, 3
  {
    before.Dict? && after.Dict? ==>
      && (if scope.way == Response then ConstFrom(before, after) else ConstFrom(after, before))
      && RefersOutside(At(before, "$ref"), scope.unguarded)
      && GuardedProperties(scope, At(before, "properties"), At(after, "properties"))
      && Guarded(scope, At(before, "items"), At(after, "items"))
      && GuardedExtras(scope, before, after)
      && GuardedList(scope, At(before, "allOf"), At(after, "allOf"))
      && GuardedList(scope, At(before, "anyOf"), At(after, "anyOf"))
      && GuardedUnion(scope, At(before, "oneOf"), At(after, "oneOf"))
  }

  predicate GuardedProperties(scope: Scope, before: Json, after: Json)
    decreases before != Null, before, 1
  {
    forall i | 0 <= i < |Entries(before)| :: Guarded(scope, Entries(before)[i].value, At(after, Entries(before)[i].key))
  }

  predicate GuardedExtras(scope: Scope, before: Json, after: Json)
    requires before.Dict?
    decreases true, before, 1
  {
    var p, q := At(before, "additionalProperties"), Entries(At(after, "properties"));
    && Guarded(scope, p, At(after, "additionalProperties"))
    && forall i | 0 <= i < |q| && !Has(Entries(At(before, "properties")), q[i].key) ::
         Harmless(scope.way, p, q[i].value) || (Compatible(p, q[i].value) && Guarded(scope, p, q[i].value))
  }

  /**
    A new property's schema beside the old rule for extra ones. For responses it must accept no more: the rule
    accepted everything, or the schema accepts nothing. For requests no less: the rule accepted nothing, or the
    schema accepts everything.
   */
  predicate Harmless(way: Way, rule: Json, schema: Json) {
    if way == Response then !Restrictive(rule) || schema == Bool(false) else rule == Bool(false) || !Restrictive(schema)
  }

  predicate GuardedList(scope: Scope, before: Json, after: Json)
    decreases before != Null, before, 1
  {
    forall i | 0 <= i < |Items(before)| && i < |Items(after)| :: Guarded(scope, Items(before)[i], Items(after)[i])
  }

  predicate GuardedUnion(scope: Scope, before: Json, after: Json)
    decreases before != Null, before, 2
  {
    UnchangedList(scope.changed, before, after) || (GuardedList(scope, before, after) && ArrivesApart(scope, before, after))
  }

  predicate UnchangedList(changed: set<string>, before: Json, after: Json) {
    forall i | 0 <= i < |Items(before)| && i < |Items(after)| ::
      Compatible(Items(after)[i], Items(before)[i]) && Steady(changed, Items(before)[i], Items(after)[i])
  }

  /** Where values arrive, before for responses and after for requests, no two members share one. */
  predicate ArrivesApart(scope: Scope, before: Json, after: Json) {
    if scope.way == Response then UnionApart(scope.olds, before, after) else UnionApart(scope.news, after, before)
  }

  // ---------- the theorem on schemas ----------

  /** Two schemas that compare clean: in both directions when same, else in one direction and guarded. */
  predicate Linked(scope: Scope, same: bool, before: Json, after: Json) {
    && Compatible(before, after) && ValidSchema(before) && ValidSchema(after)
    && if same then Compatible(after, before) && Steady(scope.changed, before, after) else Guarded(scope, before, after)
  }

  /** The components the scope does not exclude are linked. */
  ghost predicate Holds(scope: Scope) {
    && (forall name | name !in scope.unguarded && (Has(Entries(scope.olds), name) || (scope.way == Request && Has(Entries(scope.news), name))) ::
          Has(Entries(scope.olds), name) && Has(Entries(scope.news), name) && Linked(scope, false, At(scope.olds, name), At(scope.news, name)))
    && (forall name | name !in scope.changed && (Has(Entries(scope.olds), name) || Has(Entries(scope.news), name)) ::
          Has(Entries(scope.olds), name) && Has(Entries(scope.news), name) && Linked(scope, true, At(scope.olds, name), At(scope.news, name)))
  }

  /** What the new schema accepts, the old one accepted. */
  predicate Down(scope: Scope, same: bool) {
    same || scope.way == Response
  }

  /** What the old schema accepted, the new one accepts. */
  predicate Up(scope: Scope, same: bool) {
    same || scope.way == Request
  }

  /**
    The theorem: under the guard a clean report lets values pass in the way that is asked for, and both ways
    between schemas that compare clean both ways.
   */
  lemma {:induction false} SchemaSound(n: nat, scope: Scope, same: bool, before: Json, after: Json, v: Json)
    requires Holds(scope) && Linked(scope, same, before, after)
    ensures Down(scope, same) && Accepts(n, scope.news, after, v) ==> Accepts(n, scope.olds, before, v)
    ensures Up(scope, same) && Accepts(n, scope.olds, before, v) ==> Accepts(n, scope.news, after, v)
    decreases n, before != Null, before, 6
  {
    hide Holds, MappingsCompatible, MappingAccepts, Guarded, Steady, Down, Up;
    if before.Dict? && after.Dict? {
      MappingSound(n, scope, same, before, after, v);
    }
  }

  lemma {:induction false} MappingSound(n: nat, scope: Scope, same: bool, before: Json, after: Json, v: Json)
    requires Holds(scope) && Linked(scope, same, before, after) && before.Dict? && after.Dict?
    ensures Down(scope, same) && MappingAccepts(n, scope.news, after, v) ==> MappingAccepts(n, scope.olds, before, v)
    ensures Up(scope, same) && MappingAccepts(n, scope.olds, before, v) ==> MappingAccepts(n, scope.news, after, v)
    decreases n, true, before, 5
  {
    hide Holds, Linked, Has, At, MappingAccepts, Down, Up;
    hide ReferenceAccepts, HeadAccepts, EntriesAccept, ElementsAccept, AllAccept, AnyAccepts, OneAccepts;
    GivenBoth(scope, same, before, after);
    PlainParts(n, scope, same, before, after, v);
    ListParts(n, scope, same, before, after, v);
    if Down(scope, same) && MappingAccepts(n, scope.news, after, v) {
      MappingFrom(n, scope.news, scope.olds, after, before, v);
    }
    if Up(scope, same) && MappingAccepts(n, scope.olds, before, v) {
      MappingFrom(n, scope.olds, scope.news, before, after, v);
    }
  }

  /** The conjunction of what holds of the keywords one by one. */
  lemma MappingFrom(n: nat, c: Json, d: Json, p: Json, q: Json, v: Json)
    requires p.Dict? && q.Dict? && MappingAccepts(n, c, p, v)
    requires ReferenceAccepts(n, c, At(p, "$ref"), v) ==> ReferenceAccepts(n, d, At(q, "$ref"), v)
    requires HeadAccepts(p, v) ==> HeadAccepts(q, v)
    requires EntriesAccept(n, c, p, v) ==> EntriesAccept(n, d, q, v)
    requires ElementsAccept(n, c, At(p, "items"), v) ==> ElementsAccept(n, d, At(q, "items"), v)
    requires AllAccept(n, c, At(p, "allOf"), v) ==> AllAccept(n, d, At(q, "allOf"), v)
    requires AnyAccepts(n, c, At(p, "anyOf"), v) ==> AnyAccepts(n, d, At(q, "anyOf"), v)
    requires OneAccepts(n, c, At(p, "oneOf"), v) ==> OneAccepts(n, d, At(q, "oneOf"), v)
    requires Has(q.entries, "anyOf") ==> Has(p.entries, "anyOf")
    requires Has(q.entries, "oneOf") ==> Has(p.entries, "oneOf")
    ensures MappingAccepts(n, d, q, v)
  {
    hide ReferenceAccepts, HeadAccepts, EntriesAccept, ElementsAccept, AllAccept, AnyAccepts, OneAccepts, Has, At;
  }

  lemma {:induction false} PlainParts(n: nat, scope: Scope, same: bool, before: Json, after: Json, v: Json)
    requires Holds(scope) && Linked(scope, same, before, after) && before.Dict? && after.Dict?
    ensures Down(scope, same) && HeadAccepts(after, v) ==> HeadAccepts(before, v)
    ensures Up(scope, same) && HeadAccepts(before, v) ==> HeadAccepts(after, v)
    ensures var o, r := At(before, "$ref"), At(after, "$ref");
      && (Down(scope, same) && ReferenceAccepts(n, scope.news, r, v) ==> ReferenceAccepts(n, scope.olds, o, v))
      && (Up(scope, same) && ReferenceAccepts(n, scope.olds, o, v) ==> ReferenceAccepts(n, scope.news, r, v))
    ensures Down(scope, same) && EntriesAccept(n, scope.news, after, v) ==> EntriesAccept(n, scope.olds, before, v)
    ensures Up(scope, same) && EntriesAccept(n, scope.olds, before, v) ==> EntriesAccept(n, scope.news, after, v)
    ensures var o, r := At(before, "items"), At(after, "items");
      && (Down(scope, same) && ElementsAccept(n, scope.news, r, v) ==> ElementsAccept(n, scope.olds, o, v))
      && (Up(scope, same) && ElementsAccept(n, scope.olds, o, v) ==> ElementsAccept(n, scope.news, r, v))
    decreases n, true, before, 4
  {
    hide Holds, Linked, Lists, RefersOutside, Equal, LinkedProperties, LinkedExtras, Has, HeadCompatible, ConstFrom, Down, Up;
    hide HeadAccepts, ReferenceAccepts, EntriesAccept, ElementsAccept;
    HeadLinked(scope, same, before, after);
    PropertiesLinked(scope, same, before, after);
    ItemsLinked(scope, same, before, after);
    ExtrasLinked(scope, same, before, after);
    HeadKeeps(scope, same, before, after, v);
    SameReference(before, after);
    ReferenceKeeps(n, scope, same, before, At(after, "$ref"), v);
    ElementsKeep(n, scope, same, At(before, "items"), At(after, "items"), v);
    EntriesKeep(n, scope, same, before, after, v);
  }

  lemma SameReference(before: Json, after: Json)
    requires HeadCompatible(before, after)
    ensures Equal(At(before, "$ref"), At(after, "$ref"))
  {
    hide Equal, SchemaType;
  }

  lemma {:induction false} ListParts(n: nat, scope: Scope, same: bool, before: Json, after: Json, v: Json)
    requires Holds(scope) && Linked(scope, same, before, after) && before.Dict? && after.Dict?
    ensures var o, r := At(before, "allOf"), At(after, "allOf");
      && (Down(scope, same) && AllAccept(n, scope.news, r, v) ==> AllAccept(n, scope.olds, o, v))
      && (Up(scope, same) && AllAccept(n, scope.olds, o, v) ==> AllAccept(n, scope.news, r, v))
    ensures var o, r := At(before, "anyOf"), At(after, "anyOf");
      && (Down(scope, same) && AnyAccepts(n, scope.news, r, v) ==> AnyAccepts(n, scope.olds, o, v))
      && (Up(scope, same) && AnyAccepts(n, scope.olds, o, v) ==> AnyAccepts(n, scope.news, r, v))
    ensures var o, r := At(before, "oneOf"), At(after, "oneOf");
      && (Down(scope, same) && OneAccepts(n, scope.news, r, v) ==> OneAccepts(n, scope.olds, o, v))
      && (Up(scope, same) && OneAccepts(n, scope.olds, o, v) ==> OneAccepts(n, scope.news, r, v))
    decreases n, true, before, 4
  {
    hide Holds, Linked, LinkedList, LinkedUnion, ListKept, AllAccept, AnyAccepts, OneAccepts, Down, Up;
    ListsLinked(scope, same, before, after);
    ListKeeps(n, scope, same, At(before, "allOf"), At(after, "allOf"), v);
    ListKeeps(n, scope, same, At(before, "anyOf"), At(after, "anyOf"), v);
    AllFrom(n, scope, same, At(before, "allOf"), At(after, "allOf"), v);
    AnyFrom(n, scope, same, At(before, "anyOf"), At(after, "anyOf"), v);
    UnionKeeps(n, scope, same, At(before, "oneOf"), At(after, "oneOf"), v);
  }

  // ---------- what is linked in linked mappings ----------

  predicate LinkedList(scope: Scope, same: bool, before: Json, after: Json) {
    && |Items(before)| == |Items(after)|
    && forall i | 0 <= i < |Items(before)| :: Linked(scope, same, Items(before)[i], Items(after)[i])
  }

  predicate LinkedUnion(scope: Scope, same: bool, before: Json, after: Json) {
    LinkedList(scope, true, before, after) || (!same && LinkedList(scope, false, before, after) && ArrivesApart(scope, before, after))
  }

  ghost predicate LinkedProperties(scope: Scope, same: bool, before: Json, after: Json) {
    && (forall name | Has(Entries(before), name) :: Has(Entries(after), name) && Linked(scope, same, At(before, name), At(after, name)))
    && (same ==> forall name | Has(Entries(after), name) :: Has(Entries(before), name))
  }

  ghost predicate LinkedExtras(scope: Scope, same: bool, before: Json, after: Json) {
    var p, props := At(before, "additionalProperties"), At(after, "properties");
    && Linked(scope, same, p, At(after, "additionalProperties"))
    && forall name | Has(Entries(props), name) && !Has(Entries(At(before, "properties")), name) ::
         Harmless(scope.way, p, At(props, name)) || Linked(scope, false, p, At(props, name))
  }

  lemma HeadLinked(scope: Scope, same: bool, before: Json, after: Json)
    requires Linked(scope, same, before, after) && before.Dict? && after.Dict?
    ensures HeadCompatible(before, after)
    ensures (Down(scope, same) ==> ConstFrom(before, after)) && (Up(scope, same) ==> ConstFrom(after, before))
    ensures RefersOutside(At(before, "$ref"), if same then scope.changed else scope.unguarded)
    ensures forall keyword | keyword == "enum" || keyword == "anyOf" || keyword == "oneOf" :: Lists(before, keyword) && Lists(after, keyword)
  {
    hide HeadCompatible, ConstFrom, RefersOutside, Lists;
    assert MappingsCompatible(before, after);
  }

  lemma PropertiesLinked(scope: Scope, same: bool, before: Json, after: Json)
    requires Linked(scope, same, before, after) && before.Dict? && after.Dict?
    ensures LinkedProperties(scope, same, At(before, "properties"), At(after, "properties"))
  {
    var p, q := At(before, "properties"), At(after, "properties");
    PropertiesRead(scope, same, before, after);
    hide Compatible, ValidSchema, Guarded, Steady, PropertiesCompatible, ValidProperties;
    forall name | Has(Entries(p), name) ensures Has(Entries(q), name) && Linked(scope, same, At(p, name), At(q, name)) {
      KeptComponent(p, q, name);
      ValidComponent(p, name);
      ValidComponent(q, name);
      if same {
        KeptComponent(q, p, name);
      }
      var i :| 0 <= i < |Entries(p)| && Entries(p)[i].key == name && Entries(p)[i].value == At(p, name);
    }
    forall name | same && Has(Entries(q), name) ensures Has(Entries(p), name) {
      KeptComponent(q, p, name);
    }
  }

  lemma PropertiesRead(scope: Scope, same: bool, before: Json, after: Json)
    requires Linked(scope, same, before, after) && before.Dict? && after.Dict?
    ensures var p, q := At(before, "properties"), At(after, "properties");
      && PropertiesCompatible(p, q) && (same ==> PropertiesCompatible(q, p))
      && ValidProperties(p) && ValidProperties(q)
      && if same then SteadyProperties(scope.changed, p, q) else GuardedProperties(scope, p, q)
  {
    assert MappingsCompatible(before, after) && (same ==> MappingsCompatible(after, before));
    hide PropertiesCompatible, ValidProperties, GuardedProperties, SteadyProperties;
  }

  lemma ItemsLinked(scope: Scope, same: bool, before: Json, after: Json)
    requires Linked(scope, same, before, after) && before.Dict? && after.Dict?
    ensures Linked(scope, same, At(before, "items"), At(after, "items"))
  {
    assert MappingsCompatible(before, after) && (same ==> MappingsCompatible(after, before));
  }

  lemma ExtrasLinked(scope: Scope, same: bool, before: Json, after: Json)
    requires Linked(scope, same, before, after) && before.Dict? && after.Dict?
    ensures LinkedExtras(scope, same, before, after)
  {
    var p, q, props := At(before, "additionalProperties"), At(after, "additionalProperties"), At(after, "properties");
    ExtrasRead(scope, same, before, after);
    SameProperties(scope, same, before, after);
    hide Compatible, ValidSchema, Guarded, GuardedExtras, Steady, ValidProperties, Harmless, Has, At;
    forall name | Has(Entries(props), name) && !Has(Entries(At(before, "properties")), name)
      ensures Harmless(scope.way, p, At(props, name)) || Linked(scope, false, p, At(props, name))
    {
      AddedLinked(scope, before, after, name);
    }
  }

  lemma AddedLinked(scope: Scope, before: Json, after: Json, name: string)
    requires before.Dict? && after.Dict? && GuardedExtras(scope, before, after)
    requires ValidSchema(At(before, "additionalProperties")) && ValidProperties(At(after, "properties"))
    requires Has(Entries(At(after, "properties")), name) && !Has(Entries(At(before, "properties")), name)
    ensures var p, s := At(before, "additionalProperties"), At(At(after, "properties"), name);
      Harmless(scope.way, p, s) || Linked(scope, false, p, s)
  {
    hide Compatible, ValidSchema, Guarded, Harmless, ValidProperties;
    var props := At(after, "properties");
    ValidComponent(props, name);
    var i :| 0 <= i < |Entries(props)| && Entries(props)[i].key == name && Entries(props)[i].value == At(props, name);
  }

  lemma SameProperties(scope: Scope, same: bool, before: Json, after: Json)
    requires Linked(scope, same, before, after) && before.Dict? && after.Dict?
    ensures same ==> forall name | Has(Entries(At(after, "properties")), name) :: Has(Entries(At(before, "properties")), name)
  {
    hide Linked, Has, At;
    PropertiesLinked(scope, same, before, after);
  }

  lemma ExtrasRead(scope: Scope, same: bool, before: Json, after: Json)
    requires Linked(scope, same, before, after) && before.Dict? && after.Dict?
    ensures var p, q := At(before, "additionalProperties"), At(after, "additionalProperties");
      && ValidSchema(p) && ValidSchema(q) && Compatible(p, q) && (same ==> Compatible(q, p))
      && ValidProperties(At(after, "properties"))
      && if same then Steady(scope.changed, p, q) else GuardedExtras(scope, before, after)
  {
    ExtrasValid(scope, same, before, after);
    assert MappingsCompatible(before, after) && (same ==> MappingsCompatible(after, before)) by {
      hide MappingsCompatible;
    }
    hide Compatible, ValidSchema, Guarded, Steady;
    ExtrasCompared(before, after);
    if same {
      ExtrasCompared(after, before);
    }
  }

  lemma ExtrasValid(scope: Scope, same: bool, before: Json, after: Json)
    requires Linked(scope, same, before, after) && before.Dict? && after.Dict?
    ensures ValidSchema(At(before, "additionalProperties")) && ValidSchema(At(after, "additionalProperties"))
    ensures ValidProperties(At(after, "properties"))
    ensures if same then Steady(scope.changed, At(before, "additionalProperties"), At(after, "additionalProperties")) else GuardedExtras(scope, before, after)
  {
    hide Compatible;
  }

  lemma ExtrasCompared(before: Json, after: Json)
    requires before.Dict? && MappingsCompatible(before, after)
    ensures Compatible(At(before, "additionalProperties"), At(after, "additionalProperties"))
  {
    assert ExtrasCompatible(before, after);
    hide MappingsCompatible, At;
  }

  lemma ListsLinked(scope: Scope, same: bool, before: Json, after: Json)
    requires Linked(scope, same, before, after) && before.Dict? && after.Dict?
    ensures LinkedList(scope, same, At(before, "allOf"), At(after, "allOf"))
    ensures LinkedList(scope, same, At(before, "anyOf"), At(after, "anyOf"))
    ensures LinkedUnion(scope, same, At(before, "oneOf"), At(after, "oneOf"))
    ensures |Items(At(before, "oneOf"))| == |Items(At(after, "oneOf"))|
  {
    assert Compatible(before, after) && (same ==> Compatible(after, before)) by {
      hide Compatible, ValidSchema, Steady, Guarded;
    }
    hide Compatible;
    ListsCompared(before, after);
    if same {
      ListsCompared(after, before);
    }
    ListsAreRead(scope, same, before, after);
    hide Linked, LinkedList, LinkedUnion, ListCompatible, ValidList, SteadyList, GuardedList, GuardedUnion, At;
    ListLinked(scope, same, At(before, "allOf"), At(after, "allOf"));
    ListLinked(scope, same, At(before, "anyOf"), At(after, "anyOf"));
    UnionLinked(scope, same, At(before, "oneOf"), At(after, "oneOf"));
  }

  lemma ListsCompared(before: Json, after: Json)
    requires before.Dict? && after.Dict? && Compatible(before, after)
    ensures ListCompatible(At(before, "allOf"), At(after, "allOf"))
    ensures ListCompatible(At(before, "anyOf"), At(after, "anyOf"))
    ensures ListCompatible(At(before, "oneOf"), At(after, "oneOf"))
  {
    assert MappingsCompatible(before, after);
    hide Compatible;
  }

  /** What validity and the guard say of the lists. */
  ghost predicate ListsRead(scope: Scope, same: bool, before: Json, after: Json) {
    && (forall keyword | keyword == "allOf" || keyword == "anyOf" ::
          && ValidList(At(before, keyword)) && ValidList(At(after, keyword))
          && if same then SteadyList(scope.changed, At(before, keyword), At(after, keyword)) else GuardedList(scope, At(before, keyword), At(after, keyword)))
    && ValidList(At(before, "oneOf")) && ValidList(At(after, "oneOf"))
    && if same then SteadyList(scope.changed, At(before, "oneOf"), At(after, "oneOf")) else GuardedUnion(scope, At(before, "oneOf"), At(after, "oneOf"))
  }

  lemma ListsAreRead(scope: Scope, same: bool, before: Json, after: Json)
    requires Linked(scope, same, before, after) && before.Dict? && after.Dict?
    ensures ListsRead(scope, same, before, after)
  {
    hide Compatible, GuardedUnion, GuardedList, SteadyList, ValidList;
  }

  lemma ListLinked(scope: Scope, same: bool, before: Json, after: Json)
    requires ListCompatible(before, after) && ValidList(before) && ValidList(after)
    requires if same then ListCompatible(after, before) && SteadyList(scope.changed, before, after) else GuardedList(scope, before, after)
    ensures LinkedList(scope, same, before, after)
  {
    hide Compatible, ValidSchema, Guarded, Steady;
  }

  lemma UnionLinked(scope: Scope, same: bool, before: Json, after: Json)
    requires ListCompatible(before, after) && ValidList(before) && ValidList(after)
    requires if same then ListCompatible(after, before) && SteadyList(scope.changed, before, after) else GuardedUnion(scope, before, after)
    ensures LinkedUnion(scope, same, before, after) && |Items(before)| == |Items(after)|
  {
    hide Compatible, ValidSchema, Guarded, Steady, ArrivesApart;
  }

  lemma GivenBoth(scope: Scope, same: bool, before: Json, after: Json)
    requires Linked(scope, same, before, after) && before.Dict? && after.Dict?
    ensures Has(before.entries, "anyOf") <==> Has(after.entries, "anyOf")
    ensures Has(before.entries, "oneOf") <==> Has(after.entries, "oneOf")
  {
    hide Linked, LinkedUnion;
    HeadLinked(scope, same, before, after);
    ListsLinked(scope, same, before, after);
    assert Lists(before, "anyOf") && Lists(before, "oneOf");
  }

  lemma HeadKeeps(scope: Scope, same: bool, before: Json, after: Json, v: Json)
    requires HeadCompatible(before, after) && Lists(before, "enum") && Lists(after, "enum")
    requires (Down(scope, same) ==> ConstFrom(before, after)) && (Up(scope, same) ==> ConstFrom(after, before))
    ensures Down(scope, same) && HeadAccepts(after, v) ==> HeadAccepts(before, v)
    ensures Up(scope, same) && HeadAccepts(before, v) ==> HeadAccepts(after, v)
  {
    hide SchemaType, Equal, EnumAccepts, TypeAccepts, RequiredAccepts, Has, At, Down, Up;
    TypesKeep(before, after, v);
    EnumKeeps(before, after, v);
  }

  lemma TypesKeep(before: Json, after: Json, v: Json)
    requires SchemaType(before) == SchemaType(after) && StringSet(At(before, "required")) == StringSet(At(after, "required"))
    ensures (TypeAccepts(before, v) <==> TypeAccepts(after, v)) && (RequiredAccepts(before, v) <==> RequiredAccepts(after, v))
  {
    hide SchemaType, StringSet, At, HasType, Has;
  }

  lemma EnumKeeps(before: Json, after: Json, v: Json)
    requires EnumSet(At(before, "enum")) == EnumSet(At(after, "enum")) && Lists(before, "enum") && Lists(after, "enum")
    ensures EnumAccepts(before, v) <==> EnumAccepts(after, v)
  {
    EnumListed(before);
    EnumListed(after);
    hide EnumSet, At, Equal, Has, Lists;
  }

  lemma EnumListed(schema: Json)
    requires Lists(schema, "enum")
    ensures Has(Entries(schema), "enum") <==> EnumSet(At(schema, "enum")) != {}
  {
    if Has(Entries(schema), "enum") {
      assert Items(At(schema, "enum"))[0] in EnumSet(At(schema, "enum"));
    }
  }

  lemma {:induction false} ReferenceKeeps(n: nat, scope: Scope, same: bool, before: Json, reference: Json, v: Json)
    requires Holds(scope) && before.Dict? && Equal(At(before, "$ref"), reference)
    requires RefersOutside(At(before, "$ref"), if same then scope.changed else scope.unguarded)
    ensures Down(scope, same) && ReferenceAccepts(n, scope.news, reference, v) ==> ReferenceAccepts(n, scope.olds, At(before, "$ref"), v)
    ensures Up(scope, same) && ReferenceAccepts(n, scope.olds, At(before, "$ref"), v) ==> ReferenceAccepts(n, scope.news, reference, v)
    decreases n, true, before, 3
  {
    hide Holds, Linked, Accepts, At, Resolve, Equal, RefersOutside, ReferenceAccepts, Down, Up;
    var p, q := Resolve(scope.olds, At(before, "$ref")), Resolve(scope.news, reference);
    ResolvedLinked(scope, same, At(before, "$ref"), reference);
    if n > 0 && Linked(scope, same, p, q) {
      SchemaSound(n - 1, scope, same, p, q, v);
    }
    if Down(scope, same) {
      ReferenceFrom(n, scope.news, scope.olds, reference, At(before, "$ref"), v);
    }
    if Up(scope, same) {
      ReferenceFrom(n, scope.olds, scope.news, At(before, "$ref"), reference, v);
    }
  }

  lemma ReferenceFrom(n: nat, c: Json, d: Json, r: Json, o: Json, v: Json)
    requires n > 0 && Resolve(d, o) != Null && Accepts(n - 1, c, Resolve(c, r), v) ==> Accepts(n - 1, d, Resolve(d, o), v)
    ensures ReferenceAccepts(n, c, r, v) ==> ReferenceAccepts(n, d, o, v)
  {
    hide MappingAccepts, Resolve;
  }

  lemma ResolvedLinked(scope: Scope, same: bool, o: Json, r: Json)
    requires Holds(scope) && Equal(o, r)
    requires RefersOutside(o, if same then scope.changed else scope.unguarded)
    ensures Linked(scope, same, Resolve(scope.olds, o), Resolve(scope.news, r))
         || (Resolve(scope.olds, o) == Null && (Up(scope, same) ==> Resolve(scope.news, r) == Null))
  {
    hide Linked, At, Has;
  }

  lemma {:induction false} ElementsKeep(n: nat, scope: Scope, same: bool, before: Json, after: Json, v: Json)
    requires Holds(scope) && Linked(scope, same, before, after)
    ensures Down(scope, same) && ElementsAccept(n, scope.news, after, v) ==> ElementsAccept(n, scope.olds, before, v)
    ensures Up(scope, same) && ElementsAccept(n, scope.olds, before, v) ==> ElementsAccept(n, scope.news, after, v)
    decreases n, before != Null, before, 7
  {
    hide Holds, Linked, Accepts, ElementsAccept, Down, Up;
    forall i | 0 <= i < |Items(v)|
      ensures Down(scope, same) && Accepts(n, scope.news, after, Items(v)[i]) ==> Accepts(n, scope.olds, before, Items(v)[i])
      ensures Up(scope, same) && Accepts(n, scope.olds, before, Items(v)[i]) ==> Accepts(n, scope.news, after, Items(v)[i])
    {
      SchemaSound(n, scope, same, before, after, Items(v)[i]);
    }
    if Down(scope, same) {
      ElementsFrom(n, scope.news, scope.olds, after, before, v);
    }
    if Up(scope, same) {
      ElementsFrom(n, scope.olds, scope.news, before, after, v);
    }
  }

  lemma ElementsFrom(n: nat, c: Json, d: Json, p: Json, q: Json, v: Json)
    requires forall i | 0 <= i < |Items(v)| :: Accepts(n, c, p, Items(v)[i]) ==> Accepts(n, d, q, Items(v)[i])
    ensures ElementsAccept(n, c, p, v) ==> ElementsAccept(n, d, q, v)
  {
    hide Accepts;
    assert v.List? ==> Items(v) == v.items;
  }

  lemma {:induction false} EntriesKeep(n: nat, scope: Scope, same: bool, before: Json, after: Json, v: Json)
    requires Holds(scope) && before.Dict? && after.Dict? && LinkedExtras(scope, same, before, after)
    requires LinkedProperties(scope, same, At(before, "properties"), At(after, "properties"))
    ensures Down(scope, same) && EntriesAccept(n, scope.news, after, v) ==> EntriesAccept(n, scope.olds, before, v)
    ensures Up(scope, same) && EntriesAccept(n, scope.olds, before, v) ==> EntriesAccept(n, scope.news, after, v)
    decreases n, true, before, 3
  {
    hide Holds, LinkedProperties, LinkedExtras, EntryAccepts, EntriesAccept, At, Down, Up;
    forall i | 0 <= i < |Entries(v)|
      ensures Down(scope, same) && EntryAccepts(n, scope.news, after, Entries(v)[i]) ==> EntryAccepts(n, scope.olds, before, Entries(v)[i])
      ensures Up(scope, same) && EntryAccepts(n, scope.olds, before, Entries(v)[i]) ==> EntryAccepts(n, scope.news, after, Entries(v)[i])
    {
      EntryKeeps(n, scope, same, before, after, Entries(v)[i]);
    }
    if Down(scope, same) {
      EntriesFrom(n, scope.news, scope.olds, after, before, v);
    }
    if Up(scope, same) {
      EntriesFrom(n, scope.olds, scope.news, before, after, v);
    }
  }

  lemma EntriesFrom(n: nat, c: Json, d: Json, p: Json, q: Json, v: Json)
    requires p.Dict? && q.Dict?
    requires forall i | 0 <= i < |Entries(v)| :: EntryAccepts(n, c, p, Entries(v)[i]) ==> EntryAccepts(n, d, q, Entries(v)[i])
    ensures EntriesAccept(n, c, p, v) ==> EntriesAccept(n, d, q, v)
  {
    hide EntryAccepts;
    assert v.Dict? ==> Entries(v) == v.entries;
  }

  lemma {:induction false} EntryKeeps(n: nat, scope: Scope, same: bool, before: Json, after: Json, e: Entry)
    requires Holds(scope) && before.Dict? && after.Dict? && LinkedExtras(scope, same, before, after)
    requires LinkedProperties(scope, same, At(before, "properties"), At(after, "properties"))
    ensures Down(scope, same) && EntryAccepts(n, scope.news, after, e) ==> EntryAccepts(n, scope.olds, before, e)
    ensures Up(scope, same) && EntryAccepts(n, scope.olds, before, e) ==> EntryAccepts(n, scope.news, after, e)
    decreases n, true, before, 2
  {
    hide Holds, Accepts, Has, Linked, Harmless, Down, Up;
    var p, q := At(before, "properties"), At(after, "properties");
    var rule, s := At(before, "additionalProperties"), At(q, e.key);
    if Has(Entries(p), e.key) {
      SchemaSound(n, scope, same, At(p, e.key), s, e.value);
    } else if !Has(Entries(q), e.key) {
      SchemaSound(n, scope, same, rule, At(after, "additionalProperties"), e.value);
    } else if Harmless(scope.way, rule, s) {
      assert !same;
      HarmlessKeeps(n, scope, rule, s, e.value);
    } else {
      assert !same;
      SchemaSound(n, scope, false, rule, s, e.value);
    }
  }

  lemma HarmlessKeeps(n: nat, scope: Scope, rule: Json, schema: Json, v: Json)
    requires Harmless(scope.way, rule, schema)
    ensures Down(scope, false) && Accepts(n, scope.news, schema, v) ==> Accepts(n, scope.olds, rule, v)
    ensures Up(scope, false) && Accepts(n, scope.olds, rule, v) ==> Accepts(n, scope.news, schema, v)
  {
    hide MappingAccepts;
  }

  lemma {:induction false} ListKeeps(n: nat, scope: Scope, same: bool, before: Json, after: Json, v: Json)
    requires Holds(scope) && LinkedList(scope, same, before, after)
    ensures ListKept(n, scope, same, before, after, v)
    decreases n, before != Null, before, 2
  {
    hide Holds, Linked, Accepts, Down, Up;
    forall i | 0 <= i < |Items(before)|
      ensures Down(scope, same) && Accepts(n, scope.news, Items(after)[i], v) ==> Accepts(n, scope.olds, Items(before)[i], v)
      ensures Up(scope, same) && Accepts(n, scope.olds, Items(before)[i], v) ==> Accepts(n, scope.news, Items(after)[i], v)
    {
      SchemaSound(n, scope, same, Items(before)[i], Items(after)[i], v);
    }
  }

  predicate ListKept(n: nat, scope: Scope, same: bool, before: Json, after: Json, v: Json) {
    && |Items(before)| == |Items(after)|
    && forall i | 0 <= i < |Items(before)| ::
         && (Down(scope, same) && Accepts(n, scope.news, Items(after)[i], v) ==> Accepts(n, scope.olds, Items(before)[i], v))
         && (Up(scope, same) && Accepts(n, scope.olds, Items(before)[i], v) ==> Accepts(n, scope.news, Items(after)[i], v))
  }

  lemma AllFrom(n: nat, scope: Scope, same: bool, before: Json, after: Json, v: Json)
    requires ListKept(n, scope, same, before, after, v)
    ensures Down(scope, same) && AllAccept(n, scope.news, after, v) ==> AllAccept(n, scope.olds, before, v)
    ensures Up(scope, same) && AllAccept(n, scope.olds, before, v) ==> AllAccept(n, scope.news, after, v)
  {
    hide Accepts, Down, Up;
  }

  lemma AnyFrom(n: nat, scope: Scope, same: bool, before: Json, after: Json, v: Json)
    requires ListKept(n, scope, same, before, after, v)
    ensures Down(scope, same) && AnyAccepts(n, scope.news, after, v) ==> AnyAccepts(n, scope.olds, before, v)
    ensures Up(scope, same) && AnyAccepts(n, scope.olds, before, v) ==> AnyAccepts(n, scope.news, after, v)
  {
    hide Accepts, Down, Up;
  }

  lemma {:induction false} UnionKeeps(n: nat, scope: Scope, same: bool, before: Json, after: Json, v: Json)
    requires Holds(scope) && LinkedUnion(scope, same, before, after) && |Items(before)| == |Items(after)|
    ensures Down(scope, same) && OneAccepts(n, scope.news, after, v) ==> OneAccepts(n, scope.olds, before, v)
    ensures Up(scope, same) && OneAccepts(n, scope.olds, before, v) ==> OneAccepts(n, scope.news, after, v)
    decreases n, before != Null, before, 3
  {
    hide Holds, LinkedList, ListKept, OneAccepts, ArrivesApart;
    if LinkedList(scope, true, before, after) {
      ListKeeps(n, scope, true, before, after, v);
      OneFrom(n, scope, before, after, v);
    } else {
      ListKeeps(n, scope, false, before, after, v);
      OneFromApart(n, scope, before, after, v);
    }
  }

  lemma OneFrom(n: nat, scope: Scope, before: Json, after: Json, v: Json)
    requires ListKept(n, scope, true, before, after, v)
    ensures OneAccepts(n, scope.news, after, v) <==> OneAccepts(n, scope.olds, before, v)
  {
    hide Accepts, Verdicts, OneAccepts;
    OneIsOne(n, scope.olds, before, v);
    OneIsOne(n, scope.news, after, v);
    assert Verdicts(n, scope.olds, before, v) == Verdicts(n, scope.news, after, v);
  }

  lemma OneFromApart(n: nat, scope: Scope, before: Json, after: Json, v: Json)
    requires ListKept(n, scope, false, before, after, v) && ArrivesApart(scope, before, after)
    ensures Down(scope, false) && OneAccepts(n, scope.news, after, v) ==> OneAccepts(n, scope.olds, before, v)
    ensures Up(scope, false) && OneAccepts(n, scope.olds, before, v) ==> OneAccepts(n, scope.news, after, v)
  {
    hide Accepts, OneAccepts, UnionApart;
    if scope.way == Response {
      OneMoves(n, scope.news, after, scope.olds, before, v);
    } else {
      OneMoves(n, scope.olds, before, scope.news, after, v);
    }
  }

  lemma KeptComponent(olds: Json, news: Json, name: string)
    requires PropertiesCompatible(olds, news) && Has(Entries(olds), name)
    ensures Has(Entries(news), name) && Compatible(At(olds, name), At(news, name))
  {
    hide Compatible;
    var i :| 0 <= i < |Entries(olds)| && Entries(olds)[i].key == name && Entries(olds)[i].value == At(olds, name);
    assert KeptCompatible(Entries(olds)[i], news);
  }

  lemma ValidComponent(components: Json, name: string)
    requires ValidProperties(components) && Has(Entries(components), name)
    ensures ValidSchema(At(components, name))
  {
    hide ValidSchema;
  }

  // ---------- at every large enough depth ----------

  lemma NewIsOld(scope: Scope, same: bool, before: Json, after: Json, v: Json, m: nat)
    requires Holds(scope) && Linked(scope, same, before, after) && Down(scope, same)
    requires AcceptedFrom(m, scope.news, after, v)
    ensures AcceptedFrom(m, scope.olds, before, v)
  {
    hide Holds, Linked, Accepts, Down;
    forall k: nat | k >= m ensures Accepts(k, scope.olds, before, v) {
      SchemaSound(k, scope, same, before, after, v);
    }
  }

  lemma OldIsNew(scope: Scope, same: bool, before: Json, after: Json, v: Json, m: nat)
    requires Holds(scope) && Linked(scope, same, before, after) && Up(scope, same)
    requires AcceptedFrom(m, scope.olds, before, v)
    ensures AcceptedFrom(m, scope.news, after, v)
  {
    hide Holds, Linked, Accepts, Up;
    forall k: nat | k >= m ensures Accepts(k, scope.news, after, v) {
      SchemaSound(k, scope, same, before, after, v);
    }
  }
}
