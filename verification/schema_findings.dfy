/**
  What the findings on two schemas say: each is a difference at the place it names, and each such difference
  has its finding. Differences and places are described without the comparison.
 */
module SchemaDifferences {
  import opened Json
  import opened Breaking

  // ---------- places in a schema ----------

  /** One step from a schema to a schema in it. */
  datatype Turn = Property(name: string) | Elements | Extras | Member(keyword: string, index: nat)

  const LISTS: set<string> := {"allOf", "anyOf", "oneOf"}

  function Follow(schema: Json, turn: Turn): (next: Json)
    ensures next != Null ==> (schema decreases to next)
  {
    match turn
    case Property(name) => At(At(schema, "properties"), name)
    case Elements => At(schema, "items")
    case Extras => if At(schema, "additionalProperties").Dict? then At(schema, "additionalProperties") else Null
    case Member(keyword, index) => if index < |Items(At(schema, keyword))| then Items(At(schema, keyword))[index] else Null
  }

  /** Both schemas are mappings that can be compared beyond the turn. */
  predicate Passable(before: Json, after: Json, turn: Turn) {
    && before.Dict? && after.Dict?
    && match turn
       case Property(name) => Has(Entries(At(before, "properties")), name) && Has(Entries(At(after, "properties")), name)
       case Elements => true
       case Extras => At(before, "additionalProperties").Dict? || At(after, "additionalProperties").Dict?
       case Member(keyword, index) =>
         keyword in LISTS && index < |Items(At(before, keyword))| == |Items(At(after, keyword))|
  }

  function TurnText(turn: Turn): string {
    match turn
    case Property(name) => ".properties." + name
    case Elements => ".items"
    case Extras => ".additionalProperties"
    case Member(keyword, index) => "." + keyword + "." + Decimal(index)
  }

  // ---------- differences at a place ----------

  /** What some list has and the other lacks. */
  ghost predicate OnlyIn(values: set<Json>, one: Json, other: Json) {
    values != {} && forall v :: v in values <==> v in Items(one) && v !in Items(other)
  }

  predicate NamedOnlyIn(name: Label, one: Json, other: Json) {
    && (exists i | 0 <= i < |Items(one)| :: LabelOf(Items(one)[i]) == name)
    && (forall i | 0 <= i < |Items(other)| :: LabelOf(Items(other)[i]) != name)
  }

  predicate TypeDiffers(before: Json, after: Json, location: string, f: Finding) {
    if before.Dict? && after.Dict? then
      || (f.location == location && (!Equal(At(before, "$ref"), At(after, "$ref")) || SchemaType(before) != SchemaType(after)))
      || (f.location == location + ".additionalProperties" && PlainExtrasDiffer(before, after))
      || exists keyword | keyword in LISTS ::
           f.location == location + "." + keyword && |Items(At(before, keyword))| != |Items(At(after, keyword))|
    else f.location == location && !Equal(before, after)
  }

  predicate PlainExtrasDiffer(before: Json, after: Json) {
    var o, n := At(before, "additionalProperties"), At(after, "additionalProperties");
    !o.Dict? && !n.Dict? && !Equal(o, n)
  }

  /** The finding names what one of two schemas, compared at the location, has and the other has not. */
  ghost predicate DiffersAt(before: Json, after: Json, location: string, f: Finding) {
    match f.kind
    case TypeChanged => f.detail == Plain && TypeDiffers(before, after, location, f)
    case FieldRemoved =>
      && before.Dict? && after.Dict? && f.detail.Name? && f.detail.name.Text?
      && var name := f.detail.name.text;
         && f.location == location + ".properties." + name
         && Has(Entries(At(before, "properties")), name) && !Has(Entries(At(after, "properties")), name)
    case RequiredRemoved =>
      && before.Dict? && after.Dict? && f.location == location + ".required" && f.detail.Name?
      && NamedOnlyIn(f.detail.name, At(before, "required"), At(after, "required"))
    case RequiredAdded =>
      && before.Dict? && after.Dict? && f.location == location + ".required" && f.detail.Name?
      && NamedOnlyIn(f.detail.name, At(after, "required"), At(before, "required"))
    case EnumNarrowed =>
      && before.Dict? && after.Dict? && f.location == location + ".enum" && f.detail.Values?
      && OnlyIn(f.detail.values, At(before, "enum"), At(after, "enum"))
    case EnumWidened =>
      && before.Dict? && after.Dict? && f.location == location + ".enum" && f.detail.Values?
      && OnlyIn(f.detail.values, At(after, "enum"), At(before, "enum"))
    case _ => false
  }

  /** The difference lies at the end of the turns, which both schemas can follow. */
  ghost predicate DiffersBelow(before: Json, after: Json, location: string, turns: seq<Turn>, f: Finding)
    decreases |turns|
  {
    if turns == [] then DiffersAt(before, after, location, f)
    else
      && Passable(before, after, turns[0])
      && DiffersBelow(Follow(before, turns[0]), Follow(after, turns[0]), location + TurnText(turns[0]), turns[1..], f)
  }

  // ---------- one level of the comparison ----------

  lemma Dotted(location: string, child: string, dotted: string)
    requires dotted == "." + child
    ensures location + "." + child == location + dotted
  {
  }

  lemma JoinIsDotted(location: string, child: string, dotted: string)
    requires location != "" && dotted == "." + child
    ensures Join(location, child) == location + dotted
  {
    Dotted(location, child, dotted);
  }

  lemma {:induction false} MissingHas(items: seq<Label>, others: seq<Label>, kind: Kind, location: string, count: nat, f: Finding)
    requires count <= |items|
    ensures f in MissingFindings(items, others, kind, location, count) <==>
      f.kind == kind && f.location == location && f.detail.Name? && f.detail.name in items[..count] && f.detail.name !in others
  {
    if count > 0 {
      MissingHas(items, others, kind, location, count - 1, f);
      assert items[..count] == items[..count - 1] + [items[count - 1]];
    }
  }

  /** A name that is listed twice is reported once. */
  lemma {:induction false} MissingOnce(items: seq<Label>, others: seq<Label>, kind: Kind, location: string, count: nat)
    requires count <= |items|
    ensures var found := MissingFindings(items, others, kind, location, count);
      forall i, j | 0 <= i < j < |found| :: found[i] != found[j]
  {
    if count > 0 {
      MissingOnce(items, others, kind, location, count - 1);
      var x := items[count - 1];
      MissingHas(items, others, kind, location, count - 1, Finding(kind, location, Name(x)));
      hide MissingFindings;
      OneMore(items, others, kind, location, count);
    }
  }

  lemma OneMore(items: seq<Label>, others: seq<Label>, kind: Kind, location: string, count: nat)
    requires 0 < count <= |items|
    ensures var x := items[count - 1];
      MissingFindings(items, others, kind, location, count) == MissingFindings(items, others, kind, location, count - 1)
        + if x !in others && x !in items[..count - 1] then [Finding(kind, location, Name(x))] else []
  {
  }

  lemma LabelsHave(list: Json, x: Label)
    ensures x in Labels(Items(list)) <==> exists i | 0 <= i < |Items(list)| :: LabelOf(Items(list)[i]) == x
  {
    hide LabelOf;
    var labels := Labels(Items(list));
    assert forall i | 0 <= i < |labels| :: labels[i] == LabelOf(Items(list)[i]);
  }

  /** Required names: those of one list that the other lacks. */
  lemma RequiredHas(one: Json, other: Json, kind: Kind, location: string, f: Finding)
    ensures var o, n := Labels(Items(one)), Labels(Items(other));
      f in MissingFindings(o, n, kind, location, |o|) <==>
        f.kind == kind && f.location == location && f.detail.Name? && NamedOnlyIn(f.detail.name, one, other)
  {
    hide MissingFindings, LabelOf, Labels;
    var o, n := Labels(Items(one)), Labels(Items(other));
    MissingHas(o, n, kind, location, |o|, f);
    assert o[..|o|] == o;
    if f.detail.Name? {
      LabelsHave(one, f.detail.name);
      LabelsHave(other, f.detail.name);
    }
  }

  lemma EnumHas(before: Json, after: Json, location: string, f: Finding)
    requires location != "" && before.Dict? && after.Dict?
    ensures f in EnumFindings(before, after, location)
       <==> (f.kind == EnumNarrowed || f.kind == EnumWidened) && DiffersAt(before, after, location, f)
  {
    hide At;
    JoinIsDotted(location, "enum", ".enum");
    var b, a := At(before, "enum"), At(after, "enum");
    var o, n := EnumSet(b), EnumSet(a);
    OnlyDifference(b, a);
    OnlyDifference(a, b);
    hide OnlyIn, EnumSet;
  }

  lemma OnlyDifference(one: Json, other: Json)
    ensures forall s :: OnlyIn(s, one, other) <==> s != {} && s == EnumSet(one) - EnumSet(other)
  {
    assert forall v :: (v in EnumSet(one) <==> v in Items(one)) && (v in EnumSet(other) <==> v in Items(other));
    hide EnumSet;
    var d := EnumSet(one) - EnumSet(other);
    assert forall v :: v in d <==> v in Items(one) && v !in Items(other);
    forall s ensures OnlyIn(s, one, other) <==> s != {} && s == d {
      if OnlyIn(s, one, other) {
        assert forall v :: v in s <==> v in d;
      }
    }
  }

  lemma HeadHas(before: Json, after: Json, location: string, f: Finding)
    requires location != "" && before.Dict? && after.Dict?
    ensures f in HeadFindings(before, after, location) <==>
      || (f == Finding(TypeChanged, location, Plain)
          && (!Equal(At(before, "$ref"), At(after, "$ref")) || SchemaType(before) != SchemaType(after)))
      || ((f.kind == RequiredRemoved || f.kind == RequiredAdded) && DiffersAt(before, after, location, f))
  {
    hide At, Equal, SchemaType, MissingFindings, NamedOnlyIn;
    JoinIsDotted(location, "required", ".required");
    RequiredHas(At(before, "required"), At(after, "required"), RequiredRemoved, location + ".required", f);
    RequiredHas(At(after, "required"), At(before, "required"), RequiredAdded, location + ".required", f);
    assert Join(location, "required") == location + ".required";
    hide Labels, Join;
    assert f in RequiredFindings(before, after, location) <==>
      (f.kind == RequiredRemoved || f.kind == RequiredAdded) && DiffersAt(before, after, location, f);
    hide RequiredFindings, DiffersAt;
  }

  lemma {:induction false} PropertiesHave(before: Json, after: Json, location: string, count: nat, f: Finding)
    requires count <= |Entries(before)|
    ensures f in PropertyFindings(before, after, location, count)
       <==> exists i | 0 <= i < count :: f in KeptFindings(Entries(before)[i], after, location)
  {
    hide KeptFindings;
    if count > 0 {
      PropertiesHave(before, after, location, count - 1, f);
    }
  }

  lemma {:induction false} MembersHave(before: Json, after: Json, location: string, count: nat, f: Finding)
    requires count <= |Items(before)| == |Items(after)|
    ensures f in MemberFindings(before, after, location, count)
       <==> exists i: nat | i < count :: f in SchemaFindings(Items(before)[i], Items(after)[i], Join(location, Decimal(i)))
  {
    hide SchemaFindings, Join, Decimal;
    if count > 0 {
      MembersHave(before, after, location, count - 1, f);
    }
  }

  /** The finding comes from the schemas beyond the turn. */
  predicate FoundBeyond(before: Json, after: Json, location: string, turn: Turn, f: Finding) {
    Passable(before, after, turn)
    && f in SchemaFindings(Follow(before, turn), Follow(after, turn), location + TurnText(turn))
  }

  lemma PropertyTurns(before: Json, after: Json, location: string, f: Finding)
    requires location != "" && before.Dict? && after.Dict? && DistinctKeys(Entries(At(before, "properties")))
    ensures var p, q := At(before, "properties"), At(after, "properties");
      f in PropertyFindings(p, q, location, |Entries(p)|) <==>
        || (f.kind == FieldRemoved && DiffersAt(before, after, location, f))
        || exists name :: FoundBeyond(before, after, location, Property(name), f)
  {
    var p, q := At(before, "properties"), At(after, "properties");
    PropertiesHave(p, q, location, |Entries(p)|, f);
    hide SchemaFindings, PropertyFindings;
    forall i: nat | i < |Entries(p)|
      ensures f in KeptFindings(Entries(p)[i], q, location) <==>
        || (f == Finding(FieldRemoved, location + ".properties." + Entries(p)[i].key, Name(Text(Entries(p)[i].key))) && !Has(Entries(q), Entries(p)[i].key))
        || FoundBeyond(before, after, location, Property(Entries(p)[i].key), f)
    {
      PropertyTurn(before, after, location, i, f);
    }
    hide At, Follow, FoundBeyond;
  }

  lemma PropertyTurn(before: Json, after: Json, location: string, i: nat, f: Finding)
    requires location != "" && before.Dict? && after.Dict?
    requires DistinctKeys(Entries(At(before, "properties"))) && i < |Entries(At(before, "properties"))|
    ensures var e, q := Entries(At(before, "properties"))[i], At(after, "properties");
      f in KeptFindings(e, q, location) <==>
        || (f == Finding(FieldRemoved, location + ".properties." + e.key, Name(Text(e.key))) && !Has(Entries(q), e.key))
        || FoundBeyond(before, after, location, Property(e.key), f)
  {
    var p, q := At(before, "properties"), At(after, "properties");
    var e := Entries(p)[i];
    GetOwn(Entries(p), i);
    hide SchemaFindings;
    JoinIsDotted(location, "properties." + e.key, ".properties." + e.key);
    assert location + (".properties." + e.key) == location + ".properties." + e.key;
  }

  lemma ExtraTurn(before: Json, after: Json, location: string, f: Finding)
    requires location != "" && before.Dict? && after.Dict?
    ensures f in ExtraFindings(before, after, location + ".additionalProperties") <==>
      || (f == Finding(TypeChanged, location + ".additionalProperties", Plain) && PlainExtrasDiffer(before, after))
      || FoundBeyond(before, after, location, Extras, f)
  {
    hide SchemaFindings, Equal, At;
  }

  lemma ListTurns(before: Json, after: Json, location: string, keyword: string, f: Finding)
    requires location != "" && before.Dict? && after.Dict? && keyword in LISTS
    ensures var p, q := At(before, keyword), At(after, keyword);
      f in ListFindings(p, q, location + "." + keyword) <==>
        || (f == Finding(TypeChanged, location + "." + keyword, Plain) && |Items(p)| != |Items(q)|)
        || exists index :: FoundBeyond(before, after, location, Member(keyword, index), f)
  {
    var p, q := At(before, keyword), At(after, keyword);
    hide SchemaFindings, At, MemberFindings, FoundBeyond;
    if |Items(p)| == |Items(q)| {
      MembersHave(p, q, location + "." + keyword, |Items(p)|, f);
      forall index: nat | index < |Items(p)|
        ensures f in SchemaFindings(Items(p)[index], Items(q)[index], Join(location + "." + keyword, Decimal(index)))
          <==> FoundBeyond(before, after, location, Member(keyword, index), f)
      {
        MemberTurn(before, after, location, keyword, index, f);
      }
    }
    NoOtherMember(before, after, location, keyword, f);
    hide Join, Decimal;
  }

  lemma NoOtherMember(before: Json, after: Json, location: string, keyword: string, f: Finding)
    ensures forall index: nat :: FoundBeyond(before, after, location, Member(keyword, index), f) ==>
      index < |Items(At(before, keyword))| == |Items(At(after, keyword))|
  {
    hide SchemaFindings, At;
  }

  lemma MemberTurn(before: Json, after: Json, location: string, keyword: string, index: nat, f: Finding)
    requires location != "" && before.Dict? && after.Dict? && keyword in LISTS
    requires index < |Items(At(before, keyword))| == |Items(At(after, keyword))|
    ensures f in SchemaFindings(Items(At(before, keyword))[index], Items(At(after, keyword))[index], Join(location + "." + keyword, Decimal(index)))
       <==> FoundBeyond(before, after, location, Member(keyword, index), f)
  {
    hide SchemaFindings, At, Decimal, Join;
    MemberText(location, keyword, Decimal(index));
  }

  lemma MemberText(location: string, keyword: string, index: string)
    ensures Join(location + "." + keyword, index) == location + ("." + keyword + "." + index)
  {
    JoinIsDotted(location + "." + keyword, index, "." + index);
    assert location + "." + keyword + ("." + index) == location + ("." + keyword + "." + index);
  }

  /** The parts of a comparison of two mappings. */
  lemma MappingHas(before: Json, after: Json, location: string, f: Finding)
    requires location != "" && before.Dict? && after.Dict?
    ensures f in MappingFindings(before, after, location) <==>
      || f in HeadFindings(before, after, location)
      || f in PropertyFindings(At(before, "properties"), At(after, "properties"), location, |Entries(At(before, "properties"))|)
      || f in EnumFindings(before, after, location)
      || f in SchemaFindings(At(before, "items"), At(after, "items"), location + ".items")
      || f in ExtraFindings(before, after, location + ".additionalProperties")
      || f in ListFindings(At(before, "allOf"), At(after, "allOf"), location + ".allOf")
      || f in ListFindings(At(before, "anyOf"), At(after, "anyOf"), location + ".anyOf")
      || f in ListFindings(At(before, "oneOf"), At(after, "oneOf"), location + ".oneOf")
  {
    hide HeadFindings, PropertyFindings, EnumFindings, SchemaFindings, ExtraFindings, ListFindings, At;
    JoinIsDotted(location, "items", ".items");
    JoinIsDotted(location, "additionalProperties", ".additionalProperties");
    JoinIsDotted(location, "allOf", ".allOf");
    JoinIsDotted(location, "anyOf", ".anyOf");
    JoinIsDotted(location, "oneOf", ".oneOf");
    hide Join;
    var p := PropertyFindings(At(before, "properties"), At(after, "properties"), location, |Entries(At(before, "properties"))|);
    InSum(
      HeadFindings(before, after, location), p, EnumFindings(before, after, location),
      SchemaFindings(At(before, "items"), At(after, "items"), location + ".items"),
      ExtraFindings(before, after, location + ".additionalProperties"),
      ListFindings(At(before, "allOf"), At(after, "allOf"), location + ".allOf"),
      ListFindings(At(before, "anyOf"), At(after, "anyOf"), location + ".anyOf"),
      ListFindings(At(before, "oneOf"), At(after, "oneOf"), location + ".oneOf"), f);
  }

  lemma InSum<T>(a: seq<T>, b: seq<T>, c: seq<T>, d: seq<T>, e: seq<T>, g: seq<T>, h: seq<T>, i: seq<T>, x: T)
    ensures x in a + b + c + d + e + g + h + i
       <==> x in a || x in b || x in c || x in d || x in e || x in g || x in h || x in i
  {
  }

  /** The comparison of two schemas finds the differences between them, and what it finds one turn further on. */
  lemma OneLevel(before: Json, after: Json, location: string, f: Finding)
    requires location != "" && WellFormed(before)
    ensures f in SchemaFindings(before, after, location) <==>
      DiffersAt(before, after, location, f) || exists turn :: FoundBeyond(before, after, location, turn, f)
  {
    hide MappingFindings, FoundBeyond, DiffersAt, Equal;
    if before.Dict? && after.Dict? {
      MappingLevel(before, after, location, f);
    } else {
      PlainLevel(before, after, location, f);
    }
  }

  lemma PlainLevel(before: Json, after: Json, location: string, f: Finding)
    requires !before.Dict? || !after.Dict?
    ensures DiffersAt(before, after, location, f) <==> f == Finding(TypeChanged, location, Plain) && !Equal(before, after)
    ensures forall turn :: !FoundBeyond(before, after, location, turn, f)
    ensures Equal(Null, Null)
  {
  }

  lemma MappingLevel(before: Json, after: Json, location: string, f: Finding)
    requires location != "" && WellFormed(before) && before.Dict? && after.Dict?
    ensures f in MappingFindings(before, after, location) <==>
      DiffersAt(before, after, location, f) || exists turn :: FoundBeyond(before, after, location, turn, f)
  {
    hide SchemaFindings, MappingFindings, HeadFindings, PropertyFindings, EnumFindings, ExtraFindings, ListFindings, Equal, SchemaType;
    hide At, Has, Entries, Items, DiffersAt, FoundBeyond, PlainExtrasDiffer, WellFormed, DistinctKeys;
    MappingHas(before, after, location, f);
    HeadHas(before, after, location, f);
    GetWellFormed(before, "properties");
    KeysDistinct(At(before, "properties"));
    PropertyTurns(before, after, location, f);
    EnumHas(before, after, location, f);
    ItemsTurn(before, after, location, f);
    ExtraTurn(before, after, location, f);
    Dotted(location, "allOf", ".allOf");
    ListTurns(before, after, location, "allOf", f);
    Dotted(location, "anyOf", ".anyOf");
    ListTurns(before, after, location, "anyOf", f);
    Dotted(location, "oneOf", ".oneOf");
    ListTurns(before, after, location, "oneOf", f);
    LocalKinds(before, after, location, f);
    TurnKinds(before, after, location, f);
  }

  lemma KeysDistinct(j: Json)
    requires WellFormed(j)
    ensures DistinctKeys(Entries(j))
  {
  }

  lemma ItemsTurn(before: Json, after: Json, location: string, f: Finding)
    requires before.Dict? && after.Dict?
    ensures f in SchemaFindings(At(before, "items"), At(after, "items"), location + ".items")
       <==> FoundBeyond(before, after, location, Elements, f)
  {
    hide SchemaFindings, At;
  }

  lemma LocalKinds(before: Json, after: Json, location: string, f: Finding)
    requires before.Dict? && after.Dict?
    ensures DiffersAt(before, after, location, f) <==>
      || (f == Finding(TypeChanged, location, Plain)
          && (!Equal(At(before, "$ref"), At(after, "$ref")) || SchemaType(before) != SchemaType(after)))
      || (f == Finding(TypeChanged, location + ".additionalProperties", Plain) && PlainExtrasDiffer(before, after))
      || (f == Finding(TypeChanged, location + ".allOf", Plain) && |Items(At(before, "allOf"))| != |Items(At(after, "allOf"))|)
      || (f == Finding(TypeChanged, location + ".anyOf", Plain) && |Items(At(before, "anyOf"))| != |Items(At(after, "anyOf"))|)
      || (f == Finding(TypeChanged, location + ".oneOf", Plain) && |Items(At(before, "oneOf"))| != |Items(At(after, "oneOf"))|)
      || (f.kind in {FieldRemoved, RequiredRemoved, RequiredAdded, EnumNarrowed, EnumWidened} && DiffersAt(before, after, location, f))
  {
    hide At, Equal, SchemaType, PlainExtrasDiffer, NamedOnlyIn, OnlyIn;
    TypeKinds(before, after, location, f);
    hide TypeDiffers;
    assert f.kind == TypeChanged && f.detail == Plain ==> f == Finding(TypeChanged, f.location, Plain);
  }

  lemma TypeKinds(before: Json, after: Json, location: string, f: Finding)
    requires before.Dict? && after.Dict?
    ensures TypeDiffers(before, after, location, f) <==>
      || (f.location == location && (!Equal(At(before, "$ref"), At(after, "$ref")) || SchemaType(before) != SchemaType(after)))
      || (f.location == location + ".additionalProperties" && PlainExtrasDiffer(before, after))
      || (f.location == location + ".allOf" && |Items(At(before, "allOf"))| != |Items(At(after, "allOf"))|)
      || (f.location == location + ".anyOf" && |Items(At(before, "anyOf"))| != |Items(At(after, "anyOf"))|)
      || (f.location == location + ".oneOf" && |Items(At(before, "oneOf"))| != |Items(At(after, "oneOf"))|)
  {
    hide At, Equal, SchemaType, PlainExtrasDiffer;
    Dotted(location, "allOf", ".allOf");
    Dotted(location, "anyOf", ".anyOf");
    Dotted(location, "oneOf", ".oneOf");
  }

  lemma TurnKinds(before: Json, after: Json, location: string, f: Finding)
    ensures (exists turn :: FoundBeyond(before, after, location, turn, f)) <==>
      || (exists name :: FoundBeyond(before, after, location, Property(name), f))
      || FoundBeyond(before, after, location, Elements, f)
      || FoundBeyond(before, after, location, Extras, f)
      || (exists index :: FoundBeyond(before, after, location, Member("allOf", index), f))
      || (exists index :: FoundBeyond(before, after, location, Member("anyOf", index), f))
      || (exists index :: FoundBeyond(before, after, location, Member("oneOf", index), f))
  {
    hide *;
    if turn :| FoundBeyond(before, after, location, turn, f) {
      TurnKeyword(before, after, location, turn, f);
      match turn
      case Property(name) =>
      case Elements =>
      case Extras =>
      case Member(keyword, index) =>
    }
  }

  lemma TurnKeyword(before: Json, after: Json, location: string, turn: Turn, f: Finding)
    requires FoundBeyond(before, after, location, turn, f)
    ensures turn.Member? ==> turn.keyword == "allOf" || turn.keyword == "anyOf" || turn.keyword == "oneOf"
  {
    hide SchemaFindings, At, Has;
  }

  // ---------- the theorem on schemas ----------

  lemma FollowWellFormed(schema: Json, turn: Turn)
    requires WellFormed(schema)
    ensures WellFormed(Follow(schema, turn))
  {
    match turn
    case Property(name) =>
      GetWellFormed(schema, "properties");
      GetWellFormed(At(schema, "properties"), name);
    case Elements => GetWellFormed(schema, "items");
    case Extras => GetWellFormed(schema, "additionalProperties");
    case Member(keyword, index) => GetWellFormed(schema, keyword);
  }

  /** Every finding of a comparison lies at a place where the two schemas differ in the way it says. */
  lemma {:induction false} SchemaFindingIsThere(before: Json, after: Json, location: string, f: Finding) returns (turns: seq<Turn>)
    requires location != "" && WellFormed(before) && f in SchemaFindings(before, after, location)
    ensures DiffersBelow(before, after, location, turns, f)
    decreases before != Null, before
  {
    hide SchemaFindings, DiffersAt, WellFormed, Follow;
    OneLevel(before, after, location, f);
    if DiffersAt(before, after, location, f) {
      turns := [];
    } else {
      var turn :| FoundBeyond(before, after, location, turn, f);
      FollowWellFormed(before, turn);
      var rest := SchemaFindingIsThere(Follow(before, turn), Follow(after, turn), location + TurnText(turn), f);
      turns := [turn] + rest;
    }
  }

  /** Every such difference is found. */
  lemma {:induction false} SchemaDifferenceIsFound(before: Json, after: Json, location: string, turns: seq<Turn>, f: Finding)
    requires location != "" && WellFormed(before) && DiffersBelow(before, after, location, turns, f)
    ensures f in SchemaFindings(before, after, location)
    decreases |turns|
  {
    hide SchemaFindings, DiffersAt, WellFormed, Follow;
    OneLevel(before, after, location, f);
    if turns != [] {
      var turn := turns[0];
      FollowWellFormed(before, turn);
      SchemaDifferenceIsFound(Follow(before, turn), Follow(after, turn), location + TurnText(turn), turns[1..], f);
      assert FoundBeyond(before, after, location, turn, f);
    }
  }

  /** The finding names a difference somewhere in the schemas at the location. */
  ghost predicate SchemaDiffers(before: Json, after: Json, location: string, f: Finding) {
    exists turns :: DiffersBelow(before, after, location, turns, f)
  }

  /** The comparison of two schemas finds exactly the differences between them. */
  lemma SchemaFindingsExact(before: Json, after: Json, location: string, f: Finding)
    requires location != "" && WellFormed(before)
    ensures f in SchemaFindings(before, after, location) <==> SchemaDiffers(before, after, location, f)
  {
    hide SchemaFindings, DiffersBelow, WellFormed;
    if f in SchemaFindings(before, after, location) {
      var turns := SchemaFindingIsThere(before, after, location, f);
    }
    if turns :| DiffersBelow(before, after, location, turns, f) {
      SchemaDifferenceIsFound(before, after, location, turns, f);
    }
  }
}
