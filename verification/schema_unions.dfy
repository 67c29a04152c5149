/** When no value can be claimed by two members of a oneOf, as can be read off the members. */
module SchemaUnions {
  import opened Json
  import opened Breaking
  import opened SchemaMeaning

  // ---------- two schemas that share no value ----------

  /** The names of types that a value can have together: its own, and an integer is also a number. */
  predicate Together(a: Label, b: Label) {
    a == b || (a in {Text("integer"), Text("number")} && b in {Text("integer"), Text("number")})
  }

  predicate DisjointTypes(s: Json, t: Json) {
    var a, b := SchemaType(s), SchemaType(t);
    && a.Names? && b.Names? && a.names != multiset{} && b.names != multiset{}
    && forall x, y | x in a.names && y in b.names :: !Together(x, y)
  }

  /** The schema of a property that is a constant text, or lists only texts. */
  predicate Tagged(schema: Json) {
    schema.Dict? && (HasTextConst(schema) || (Has(schema.entries, "enum") && forall e | e in EnumSet(At(schema, "enum")) :: e.Str?))
  }

  predicate HasTextConst(schema: Json) {
    Has(Entries(schema), "const") && At(schema, "const").Str?
  }

  /** The texts such a property may have. */
  function Tags(schema: Json): set<Json> {
    if HasTextConst(schema) then {At(schema, "const")} else EnumSet(At(schema, "enum"))
  }

  /** Both schemas list the property with tags of their own. */
  predicate TagsDiffer(s: Json, t: Json, name: string) {
    var p, q := At(s, "properties"), At(t, "properties");
    && Has(Entries(p), name) && Has(Entries(q), name) && Tagged(At(p, name)) && Tagged(At(q, name))
    && Tags(At(p, name)) !! Tags(At(q, name))
  }

  /** An object schema that requires a property in which the two have different tags. */
  predicate Discriminated(s: Json, t: Json) {
    && s.Dict? && t.Dict? && SchemaType(s) == Names(multiset{Text("object")})
    && exists required | required in StringSet(At(s, "required")) :: required.Text? && TagsDiffer(s, t, required.text)
  }

  predicate Apart(s: Json, t: Json) {
    DisjointTypes(s, t) || Discriminated(s, t) || Discriminated(t, s)
  }

  lemma ApartNeverBoth(n: nat, components: Json, s: Json, t: Json, v: Json)
    requires Apart(s, t)
    ensures !(Accepts(n, components, s, v) && Accepts(n, components, t, v))
  {
    hide Accepts, DisjointTypes, Discriminated;
    if DisjointTypes(s, t) {
      TypesNeverBoth(n, components, s, t, v);
    } else if Discriminated(s, t) {
      TagsNeverBoth(n, components, s, t, v);
    } else {
      TagsNeverBoth(n, components, t, s, v);
    }
  }

  lemma AcceptsHead(n: nat, components: Json, schema: Json, v: Json)
    requires schema.Dict? && Accepts(n, components, schema, v)
    ensures HeadAccepts(schema, v) && EntriesAccept(n, components, schema, v)
  {
    hide HeadAccepts, EntriesAccept, ReferenceAccepts, ElementsAccept, AllAccept, AnyAccepts, OneAccepts, Has, At;
    assert MappingAccepts(n, components, schema, v);
    hide Accepts;
  }

  lemma TypedIsDict(schema: Json)
    requires SchemaType(schema).Names? && SchemaType(schema).names != multiset{}
    ensures schema.Dict?
  {
  }

  lemma TypesNeverBoth(n: nat, components: Json, s: Json, t: Json, v: Json)
    requires DisjointTypes(s, t)
    ensures !(Accepts(n, components, s, v) && Accepts(n, components, t, v))
  {
    TypedIsDict(s);
    TypedIsDict(t);
    hide Accepts, SchemaType;
    if Accepts(n, components, s, v) && Accepts(n, components, t, v) {
      AcceptsHead(n, components, s, v);
      AcceptsHead(n, components, t, v);
      TypesMeet(s, t, v);
    }
  }

  /** A value that has a type of each makes the two types ones that go together. */
  lemma TypesMeet(s: Json, t: Json, v: Json)
    requires TypeAccepts(s, v) && TypeAccepts(t, v)
    ensures !DisjointTypes(s, t)
  {
    hide SchemaType, HasType;
    var a, b := SchemaType(s), SchemaType(t);
    if a.Names? && b.Names? && a.names != multiset{} && b.names != multiset{} {
      var x :| x in a.names && HasType(v, x);
      var y :| y in b.names && HasType(v, y);
      HaveTogether(v, x, y);
    }
  }

  lemma HaveTogether(v: Json, x: Label, y: Label)
    requires HasType(v, x) && HasType(v, y)
    ensures Together(x, y)
  {
  }

  lemma TagsNeverBoth(n: nat, components: Json, s: Json, t: Json, v: Json)
    requires Discriminated(s, t)
    ensures !(Accepts(n, components, s, v) && Accepts(n, components, t, v))
  {
    hide Accepts, TagsDiffer, SchemaType;
    var required :| required in StringSet(At(s, "required")) && required.Text? && TagsDiffer(s, t, required.text);
    if Accepts(n, components, s, v) && Accepts(n, components, t, v) {
      AcceptsHead(n, components, s, v);
      AcceptsHead(n, components, t, v);
      ObjectIsDict(s, v);
      assert Has(v.entries, required.text);
      var i :| 0 <= i < |v.entries| && v.entries[i].key == required.text;
      hide StringSet, Has, At, HeadAccepts, EntryAccepts, Discriminated;
      assert EntryAccepts(n, components, s, v.entries[i]) && EntryAccepts(n, components, t, v.entries[i]);
      OneTagOnly(n, components, s, t, v.entries[i]);
    }
  }

  lemma ObjectIsDict(schema: Json, v: Json)
    requires SchemaType(schema) == Names(multiset{Text("object")}) && TypeAccepts(schema, v)
    ensures v.Dict?
  {
    hide SchemaType;
  }

  lemma OneTagOnly(n: nat, components: Json, s: Json, t: Json, e: Entry)
    requires s.Dict? && t.Dict? && TagsDiffer(s, t, e.key)
    ensures !(EntryAccepts(n, components, s, e) && EntryAccepts(n, components, t, e))
  {
    var p, q := At(At(s, "properties"), e.key), At(At(t, "properties"), e.key);
    hide Accepts, At, Has;
    if EntryAccepts(n, components, s, e) && EntryAccepts(n, components, t, e) {
      AcceptsHead(n, components, p, e.value);
      AcceptsHead(n, components, q, e.value);
      TagIsListed(p, e.value);
      TagIsListed(q, e.value);
      assert false;
    }
  }

  lemma TagIsListed(schema: Json, v: Json)
    requires Tagged(schema) && EnumAccepts(schema, v) && ConstAccepts(schema, v)
    ensures v in Tags(schema)
  {
    hide At, Has, EnumSet;
    if !HasTextConst(schema) {
      var e :| e in EnumSet(At(schema, "enum")) && Equal(e, v);
      assert e.Str?;
    }
  }

  // ---------- lists of schemas ----------

  predicate PairwiseApart(schemas: seq<Json>) {
    forall i, j | 0 <= i < j < |schemas| :: Apart(schemas[i], schemas[j])
  }

  /** Nothing but a reference. */
  predicate PureReference(schema: Json) {
    schema.Dict? && schema.entries != [] && forall i | 0 <= i < |schema.entries| :: schema.entries[i].key == "$ref"
  }

  predicate PureReferences(list: Json) {
    forall i | 0 <= i < |Items(list)| :: PureReference(Items(list)[i])
  }

  function Targets(components: Json, list: Json): (targets: seq<Json>)
    ensures |targets| == |Items(list)|
  {
    seq(|Items(list)|, i requires 0 <= i < |Items(list)| => Resolve(components, At(Items(list)[i], "$ref")))
  }

  /**
    The members cannot share a value: they are apart themselves, or they all are references, before and after,
    to components that are.
   */
  predicate UnionApart(components: Json, list: Json, other: Json) {
    || PairwiseApart(Items(list))
    || (PureReferences(list) && PureReferences(other) && PairwiseApart(Targets(components, list)))
  }

  /** A pure reference accepts what its target accepts one reference further on, and everything at the last. */
  lemma ReferenceMeansTarget(n: nat, components: Json, schema: Json, v: Json)
    requires PureReference(schema)
    ensures Accepts(n, components, schema, v) <==> n == 0 || Accepts(n - 1, components, Resolve(components, At(schema, "$ref")), v)
  {
    hide Has, At, PureReference, Accepts, SchemaType, Resolve;
    ReferenceKeywords(schema);
    hide EntriesAccept, ElementsAccept, AllAccept, HeadAccepts, AnyAccepts, OneAccepts;
    NoHeadRefused(schema, v);
    NoEntryRefused(n, components, schema, v);
    AbsentAccepts(n, components, v);
    PartsAccept(n, components, schema, v);
  }

  lemma ReferenceKeywords(schema: Json)
    requires PureReference(schema)
    ensures forall key | key != "$ref" :: !Has(Entries(schema), key) && At(schema, key) == Null
    ensures schema.Dict? && SchemaType(schema).Ref?
  {
    assert schema.entries[0].key == "$ref";
    assert Has(Entries(schema), "$ref");
    forall key | key != "$ref" ensures !Has(Entries(schema), key) && At(schema, key) == Null {
    }
    hide LabelOf;
  }

  // ---------- exactly one of a list ----------

  /** What each member says of the value. */
  function Verdicts(n: nat, components: Json, list: Json, v: Json): (r: seq<bool>)
    ensures |r| == |Items(list)|
    ensures forall i | 0 <= i < |r| :: r[i] == Accepts(n, components, Items(list)[i], v)
  {
    seq(|Items(list)|, i requires 0 <= i < |Items(list)| => Accepts(n, components, Items(list)[i], v))
  }

  predicate Alone(s: seq<bool>, i: nat)
    requires i < |s|
  {
    s[i] && forall j | 0 <= j < |s| && j != i :: !s[j]
  }

  predicate One(s: seq<bool>) {
    exists i | 0 <= i < |s| :: Alone(s, i)
  }

  predicate AtMostOne(s: seq<bool>) {
    forall i, j | 0 <= i < j < |s| :: !(s[i] && s[j])
  }

  lemma OneIsOne(n: nat, components: Json, list: Json, v: Json)
    ensures OneAccepts(n, components, list, v) <==> One(Verdicts(n, components, list, v))
  {
    hide Accepts;
    var s := Verdicts(n, components, list, v);
    forall i | 0 <= i < |s| ensures Alone(s, i) <==> OnlyMember(n, components, list, i, v) {
    }
    hide Alone, OnlyMember, Verdicts;
  }

  lemma MembersApart(n: nat, components: Json, list: Json, v: Json)
    requires PairwiseApart(Items(list))
    ensures AtMostOne(Verdicts(n, components, list, v))
  {
    hide Accepts, Apart, Verdicts;
    forall i, j | 0 <= i < j < |Items(list)|
      ensures !(Accepts(n, components, Items(list)[i], v) && Accepts(n, components, Items(list)[j], v))
    {
      ApartNeverBoth(n, components, Items(list)[i], Items(list)[j], v);
    }
  }

  lemma TargetsApart(n: nat, components: Json, list: Json, v: Json)
    requires n > 0 && PureReferences(list) && PairwiseApart(Targets(components, list))
    ensures AtMostOne(Verdicts(n, components, list, v))
  {
    hide Accepts, PureReference, Resolve, At, PairwiseApart, Verdicts;
    var targets := List(Targets(components, list));
    MembersApart(n - 1, components, targets, v);
    forall i | 0 <= i < |Items(list)|
      ensures Accepts(n, components, Items(list)[i], v) <==> Accepts(n - 1, components, Targets(components, list)[i], v)
    {
      ReferenceMeansTarget(n, components, Items(list)[i], v);
    }
    assert Verdicts(n, components, list, v) == Verdicts(n - 1, components, targets, v);
  }

  /** At the last reference everything is accepted. */
  lemma LastReferences(components: Json, list: Json, v: Json)
    requires PureReferences(list)
    ensures forall i | 0 <= i < |Items(list)| :: Verdicts(0, components, list, v)[i]
  {
    hide Accepts, PureReference, Verdicts;
    forall i | 0 <= i < |Items(list)| ensures Accepts(0, components, Items(list)[i], v) {
      ReferenceMeansTarget(0, components, Items(list)[i], v);
    }
  }

  /**
    A oneOf carries over member by member as long as no value can be claimed twice where it arrives: if each
    member's values are accepted by its counterpart, then so is what exactly one member accepts.
   */
  lemma OneMoves(n: nat, c: Json, p: Json, d: Json, q: Json, v: Json)
    requires |Items(p)| == |Items(q)|
    requires forall i | 0 <= i < |Items(p)| :: Accepts(n, c, Items(p)[i], v) ==> Accepts(n, d, Items(q)[i], v)
    requires UnionApart(d, q, p)
    ensures OneAccepts(n, c, p, v) ==> OneAccepts(n, d, q, v)
  {
    hide Accepts, PureReferences, Targets, PairwiseApart, OneAccepts, Verdicts, One, AtMostOne;
    OneIsOne(n, c, p, v);
    OneIsOne(n, d, q, v);
    var s, t := Verdicts(n, c, p, v), Verdicts(n, d, q, v);
    if PairwiseApart(Items(q)) {
      MembersApart(n, d, q, v);
      OneArrives(s, t);
    } else if n > 0 {
      TargetsApart(n, d, q, v);
      OneArrives(s, t);
    } else {
      LastReferences(c, p, v);
      LastReferences(d, q, v);
      assert s == t;
    }
  }

  lemma OneArrives(s: seq<bool>, t: seq<bool>)
    requires |s| == |t| && AtMostOne(t) && forall i | 0 <= i < |s| :: s[i] ==> t[i]
    ensures One(s) ==> One(t)
  {
    if One(s) {
      var i :| 0 <= i < |s| && Alone(s, i);
      assert Alone(t, i);
    }
  }

  // ---------- one member narrowed ----------

  /** What the members other than k say. */
  function Others(n: nat, components: Json, list: Json, k: nat, v: Json): seq<bool>
    requires k < |Items(list)|
  {
    Verdicts(n, components, list, v)[k := false]
  }

  /** All members but k mean what they did, and k accepts no more than it did. */
  predicate Narrowed(n: nat, olds: Json, p: Json, news: Json, q: Json, k: nat, v: Json) {
    && |Items(p)| == |Items(q)| && k < |Items(p)|
    && (forall i | 0 <= i < |Items(p)| && i != k :: Accepts(n, olds, Items(p)[i], v) <==> Accepts(n, news, Items(q)[i], v))
    && (Accepts(n, news, Items(q)[k], v) ==> Accepts(n, olds, Items(p)[k], v))
  }

  /** The value was claimed by member k and is not any more. */
  predicate Dropped(n: nat, olds: Json, p: Json, news: Json, q: Json, k: nat, v: Json)
    requires k < |Items(p)| && k < |Items(q)|
  {
    Accepts(n, olds, Items(p)[k], v) && !Accepts(n, news, Items(q)[k], v)
  }

  /**
    What narrowing one member does to a oneOf, exactly: a value becomes accepted that was not if and only if the
    member drops it and exactly one other member claims it; one that was accepted is refused if and only if
    the member drops it and no other member claims it.
   */
  lemma NarrowedIff(n: nat, olds: Json, p: Json, news: Json, q: Json, k: nat, v: Json)
    requires Narrowed(n, olds, p, news, q, k, v)
    ensures (OneAccepts(n, news, q, v) ==> OneAccepts(n, olds, p, v))
       <==> !(Dropped(n, olds, p, news, q, k, v) && One(Others(n, olds, p, k, v)))
    ensures (OneAccepts(n, olds, p, v) ==> OneAccepts(n, news, q, v))
       <==> !(Dropped(n, olds, p, news, q, k, v) && true !in Others(n, olds, p, k, v))
  {
    hide Accepts, OneAccepts, Verdicts, One;
    OneIsOne(n, olds, p, v);
    OneIsOne(n, news, q, v);
    NarrowedVerdicts(Verdicts(n, olds, p, v), Verdicts(n, news, q, v), k);
  }

  lemma NarrowedVerdicts(s: seq<bool>, t: seq<bool>, k: nat)
    requires |s| == |t| && k < |s| && (t[k] ==> s[k]) && forall i | 0 <= i < |s| && i != k :: s[i] == t[i]
    ensures (One(t) ==> One(s)) <==> !(s[k] && !t[k] && One(s[k := false]))
    ensures (One(s) ==> One(t)) <==> !(s[k] && !t[k] && true !in s[k := false])
  {
    hide One;
    if s[k] && !t[k] {
      assert t == s[k := false];
      ClaimedBy(s, k);
    } else {
      assert t == s;
    }
  }

  /** A value that member k claims is accepted when no other claims it; the others alone then have none. */
  lemma ClaimedBy(s: seq<bool>, k: nat)
    requires k < |s| && s[k]
    ensures One(s) <==> true !in s[k := false]
    ensures One(s[k := false]) ==> true in s[k := false]
  {
    var others := s[k := false];
    assert forall i | 0 <= i < |s| && i != k :: others[i] == s[i];
    if One(s) {
      var i :| 0 <= i < |s| && Alone(s, i);
    }
    if true !in others {
      assert forall i | 0 <= i < |s| && i != k :: others[i] in others;
      assert Alone(s, k);
    }
  }
}
