/** Decoded JSON documents, as Python sees them: an absent key reads as Null, dictionaries keep their order. */
module Json {
  datatype Json =
    | Null
    | Bool(b: bool)
    | Int(i: int)
    | Float(r: real)
    | Str(s: string)
    | List(items: seq<Json>)
    | Dict(entries: seq<Entry>)

  datatype Entry = Entry(key: string, value: Json)

  predicate Has(entries: seq<Entry>, key: string) {
    exists i | 0 <= i < |entries| :: entries[i].key == key
  }

  function Get(entries: seq<Entry>, key: string): (v: Json)
    ensures Has(entries, key) ==> exists i | 0 <= i < |entries| :: entries[i].key == key && entries[i].value == v
    ensures !Has(entries, key) ==> v == Null
  {
    if entries == [] then Null
    else if entries[0].key == key then entries[0].value
    else
      assert forall i | 0 < i < |entries| :: entries[i] == entries[1..][i - 1];
      Get(entries[1..], key)
  }

  /** The mapping a value is, or the empty mapping. */
  function Entries(j: Json): seq<Entry> {
    if j.Dict? then j.entries else []
  }

  function Items(j: Json): seq<Json> {
    if j.List? then j.items else []
  }

  function At(j: Json, key: string): (v: Json)
    ensures v != Null ==> (j decreases to v)
  {
    Get(Entries(j), key)
  }

  predicate Numeric(j: Json) {
    j.Bool? || j.Int? || j.Float?
  }

  function Number(j: Json): real
    requires Numeric(j)
  {
    match j
    case Bool(b) => if b then 1.0 else 0.0
    case Int(i) => i as real
    case Float(r) => r
  }

  /** Python equality: numbers and booleans compare by value, dictionaries ignore order. */
  predicate Equal(a: Json, b: Json) {
    match a
    case Null => b.Null?
    case Str(s) => b == Str(s)
    case List(items) =>
      b.List? && |items| == |b.items| && forall i | 0 <= i < |items| :: Equal(items[i], b.items[i])
    case Dict(entries) =>
      b.Dict? && |entries| == |b.entries|
      && forall i | 0 <= i < |entries| ::
           Has(b.entries, entries[i].key) && Equal(entries[i].value, Get(b.entries, entries[i].key))
    case _ => Numeric(b) && Number(a) == Number(b)
  }

  /** No dictionary anywhere in the value repeats a key, which decoding guarantees. */
  predicate WellFormed(j: Json) {
    match j
    case List(items) => forall i | 0 <= i < |items| :: WellFormed(items[i])
    case Dict(entries) =>
      && DistinctKeys(entries)
      && forall i | 0 <= i < |entries| :: WellFormed(entries[i].value)
    case _ => true
  }

  predicate DistinctKeys(entries: seq<Entry>) {
    forall i, j | 0 <= i < |entries| && 0 <= j < |entries| && entries[i].key == entries[j].key :: i == j
  }

  lemma GetOwn(entries: seq<Entry>, i: nat)
    requires DistinctKeys(entries) && i < |entries|
    ensures Has(entries, entries[i].key) && Get(entries, entries[i].key) == entries[i].value
  {
  }

  lemma GetWellFormed(j: Json, key: string)
    requires WellFormed(j)
    ensures WellFormed(At(j, key))
  {
  }

  lemma {:induction false} EqualReflexive(j: Json)
    requires WellFormed(j)
    ensures Equal(j, j)
  {
    match j
    case List(items) =>
      forall i | 0 <= i < |items| ensures Equal(items[i], items[i]) { EqualReflexive(items[i]); }
    case Dict(entries) =>
      forall i | 0 <= i < |entries|
        ensures Has(entries, entries[i].key) && Equal(entries[i].value, Get(entries, entries[i].key))
      {
        GetOwn(entries, i);
        EqualReflexive(entries[i].value);
      }
    case _ =>
  }

  lemma {:induction false} EqualTransitive(a: Json, b: Json, c: Json)
    requires Equal(a, b) && Equal(b, c)
    ensures Equal(a, c)
  {
    match a
    case List(items) =>
      forall i | 0 <= i < |items| ensures Equal(items[i], c.items[i]) { EqualTransitive(items[i], b.items[i], c.items[i]); }
    case Dict(entries) =>
      forall i | 0 <= i < |entries|
        ensures Has(c.entries, entries[i].key) && Equal(entries[i].value, Get(c.entries, entries[i].key))
      {
        var k := entries[i].key;
        var j :| 0 <= j < |b.entries| && b.entries[j].key == k && b.entries[j].value == Get(b.entries, k);
        EqualTransitive(entries[i].value, b.entries[j].value, Get(c.entries, k));
      }
    case _ =>
  }

  // ---------- text ----------

  function Decimal(n: nat): string {
    var digit := ['0' + (n % 10) as char];
    if n < 10 then digit else Decimal(n / 10) + digit
  }

  /** The text of a value; the text of a float, list or dictionary is kept as the value it prints. */
  datatype Label = Text(text: string) | Printed(value: Json)

  function LabelOf(j: Json): Label {
    match j
    case Str(s) => Text(s)
    case Null => Text("None")
    case Bool(b) => Text(if b then "True" else "False")
    case Int(i) => Text(if i < 0 then "-" + Decimal(-i) else Decimal(i))
    case _ => Printed(j)
  }

  function Labels(items: seq<Json>): (labels: seq<Label>)
    ensures |labels| == |items|
    ensures forall i | 0 <= i < |items| :: labels[i] == LabelOf(items[i])
  {
    if items == [] then [] else [LabelOf(items[0])] + Labels(items[1..])
  }

  /** Equal dictionaries have the same keys, and equal values at each of them. */
  lemma {:induction false} EqualAtKeys(a: Json, b: Json, key: string)
    requires Equal(a, b) && WellFormed(a) && WellFormed(b) && a.Dict?
    ensures b.Dict? && (Has(a.entries, key) <==> Has(b.entries, key))
    ensures Has(a.entries, key) ==> Equal(At(a, key), At(b, key))
  {
    if Has(a.entries, key) {
      var i :| 0 <= i < |a.entries| && a.entries[i].key == key;
      GetOwn(a.entries, i);
    } else if Has(b.entries, key) {
      Crowded(a.entries, b.entries, key);
    }
  }

  /** Distinct keys cannot all be among as many others that have one more. */
  lemma Crowded(a: seq<Entry>, b: seq<Entry>, key: string)
    requires DistinctKeys(a) && DistinctKeys(b) && |a| == |b| && forall i | 0 <= i < |a| :: Has(b, a[i].key)
    ensures Has(b, key) ==> Has(a, key)
  {
    var p, q := set i | 0 <= i < |a| :: a[i].key, set i | 0 <= i < |b| :: b[i].key;
    KeyCount(a);
    KeyCount(b);
    assert p <= q;
    SubsetOfSameSize(p, q);
    if Has(b, key) {
      assert key in q;
    }
  }

  lemma SubsetOfSameSize(p: set<string>, q: set<string>)
    requires p <= q && |p| == |q|
    ensures p == q
  {
    assert |q - p| == |q| - |p|;
  }

  lemma {:induction false} KeyCount(entries: seq<Entry>)
    requires DistinctKeys(entries)
    ensures |set i | 0 <= i < |entries| :: entries[i].key| == |entries|
  {
    var keys := set i | 0 <= i < |entries| :: entries[i].key;
    if entries != [] {
      var n := |entries| - 1;
      KeyCount(entries[..n]);
      var before := set i | 0 <= i < n :: entries[..n][i].key;
      assert keys == before + {entries[n].key};
      assert entries[n].key !in before;
    } else {
      assert keys == {};
    }
  }

  /** Reading the digits of a number gives it back. */
  function ReadDecimal(s: string): int {
    if s == "" then 0 else 10 * ReadDecimal(s[..|s| - 1]) + (s[|s| - 1] as int - '0' as int)
  }

  lemma {:induction false} ReadsDecimal(n: nat)
    ensures ReadDecimal(Decimal(n)) == n && Decimal(n) != "" && (n > 0 ==> Decimal(n)[0] != '0')
  {
    var digit := '0' + (n % 10) as char;
    if n < 10 {
      assert Decimal(n) == [digit] && [digit][..0] == [];
    } else {
      ReadsDecimal(n / 10);
      assert Decimal(n)[..|Decimal(n)| - 1] == Decimal(n / 10);
    }
  }
}
