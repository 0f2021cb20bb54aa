// Key canonicalisation of JSON values (sortKeysRecursively in src/execution/execution-spec-persistence.ts).
module SpecCanonical {

  // The fields of an object are listed in the order in which the object enumerates its own keys.
  datatype Json =
    | JNull
    | JBool(value: bool)
    | JNumber(number: int)
    | JString(text: string)
    | JArray(items: seq<Json>)
    | JObject(fields: seq<Field>)

  datatype Field = Field(key: string, value: Json)

  ghost predicate DistinctKeys(fs: seq<Field>) {
    forall i, j :: 0 <= i < j < |fs| ==> fs[i].key != fs[j].key
  }

  // No object has a key twice.
  ghost predicate WellFormed(v: Json) {
    match v
    case JArray(items) => forall i | 0 <= i < |items| :: WellFormed(items[i])
    case JObject(fields) => DistinctKeys(fields) && forall i | 0 <= i < |fields| :: WellFormed(fields[i].value)
    case _ => true
  }

  // ---------- The code ----------

  predicate Less(a: string, b: string) {
    b != "" && (a == "" || a[0] < b[0] || (a[0] == b[0] && Less(a[1..], b[1..])))
  }

  function InsertSorted(f: Field, fs: seq<Field>): seq<Field> {
    if fs == [] || Less(f.key, fs[0].key) then [f] + fs else [fs[0]] + InsertSorted(f, fs[1..])
  }

  // Object.keys(value).sort()
  function SortFields(fs: seq<Field>): seq<Field> {
    if fs == [] then [] else InsertSorted(fs[0], SortFields(fs[1..]))
  }

  // Assigning this key to a plain object sets its prototype instead of adding a field.
  const PROTO := "__proto__"

  // A key that reads as an array index: such keys are enumerated first, in numeric order.
  predicate IndexKey(key: string) {
    && key != "" && (forall c | c in key :: '0' <= c <= '9') && (key[0] != '0' || |key| == 1)
    && (|key| < 10 || (|key| == 10 && Less(key, "4294967295")))
  }

  predicate NumericLess(a: string, b: string) {
    |a| < |b| || (|a| == |b| && Less(a, b))
  }

  function InsertIndex(f: Field, fs: seq<Field>): seq<Field> {
    if fs == [] || !IndexKey(fs[0].key) || NumericLess(f.key, fs[0].key) then [f] + fs
    else [fs[0]] + InsertIndex(f, fs[1..])
  }

  // result[key] = value, for a key the object does not have yet
  function Put(fs: seq<Field>, f: Field): seq<Field> {
    if f.key == PROTO then fs else if IndexKey(f.key) then InsertIndex(f, fs) else fs + [f]
  }

  function PutAll(fs: seq<Field>): seq<Field> {
    if fs == [] then [] else Put(PutAll(fs[..|fs| - 1]), fs[|fs| - 1])
  }

  function SortKeysRecursively(v: Json): Json {
    match v
    case JArray(items) => JArray(seq(|items|, i requires 0 <= i < |items| => SortKeysRecursively(items[i])))
    case JObject(fields) =>
      JObject(PutAll(SortFields(seq(|fields|, i requires 0 <= i < |fields| =>
                                                Field(fields[i].key, SortKeysRecursively(fields[i].value))))))
    case _ => v
  }

  // ---------- What it should mean ----------

  ghost predicate HasKey(fs: seq<Field>, key: string) {
    exists i :: 0 <= i < |fs| && fs[i].key == key
  }

  // Equal up to the order of object keys at every depth, apart from ignored keys.
  ghost predicate Same(a: Json, b: Json, ignored: set<string>) {
    match a
    case JArray(items) =>
      && b.JArray? && |items| == |b.items|
      && forall i | 0 <= i < |items| :: Same(items[i], b.items[i], ignored)
    case JObject(fields) =>
      && b.JObject?
      && (forall key | key !in ignored :: HasKey(fields, key) <==> HasKey(b.fields, key))
      && forall i, j | 0 <= i < |fields| && 0 <= j < |b.fields| && fields[i].key == b.fields[j].key && fields[i].key !in ignored ::
           Same(fields[i].value, b.fields[j].value, ignored)
    case _ => a == b
  }

  ghost predicate WithoutProto(v: Json) {
    match v
    case JArray(items) => forall i | 0 <= i < |items| :: WithoutProto(items[i])
    case JObject(fields) => forall i | 0 <= i < |fields| :: fields[i].key != PROTO && WithoutProto(fields[i].value)
    case _ => true
  }

  // ---------- The key order ----------

  lemma {:induction false} LessTrichotomy(a: string, b: string)
    ensures a == b || Less(a, b) || Less(b, a)
    ensures !(Less(a, b) && Less(b, a))
    ensures !Less(a, a)
  {
    if a != "" {
      LessTrichotomy(a[1..], a[1..]);
      if b != "" {
        LessTrichotomy(a[1..], b[1..]);
        if a[0] == b[0] && a[1..] == b[1..] {
          assert a == [a[0]] + a[1..] && b == [b[0]] + b[1..];
        }
      }
    }
  }

  lemma {:induction false} LessTransitive(a: string, b: string, c: string)
    requires Less(a, b) && Less(b, c)
    ensures Less(a, c)
  {
    if a != "" && a[0] == b[0] && b[0] == c[0] {
      LessTransitive(a[1..], b[1..], c[1..]);
    }
  }

  ghost predicate Sorted(fs: seq<Field>) {
    forall i, j :: 0 <= i < j < |fs| ==> Less(fs[i].key, fs[j].key)
  }

  ghost predicate SameElements(a: seq<Field>, b: seq<Field>) {
    forall f :: f in a <==> f in b
  }

  lemma {:induction false} InsertSortedKeeps(f: Field, fs: seq<Field>)
    requires Sorted(fs) && forall g | g in fs :: g.key != f.key
    ensures Sorted(InsertSorted(f, fs))
    ensures forall g :: g in InsertSorted(f, fs) <==> g == f || g in fs
  {
    if fs != [] {
      LessTrichotomy(f.key, fs[0].key);
      if Less(f.key, fs[0].key) {
        forall j | 0 < j < |fs|
          ensures Less(f.key, fs[j].key)
        {
          LessTransitive(f.key, fs[0].key, fs[j].key);
        }
      } else {
        InsertSortedKeeps(f, fs[1..]);
        var rest := InsertSorted(f, fs[1..]);
        forall g | g in rest
          ensures Less(fs[0].key, g.key)
        {
        }
      }
    }
  }

  lemma {:induction false} SortFieldsSorts(fs: seq<Field>)
    requires DistinctKeys(fs)
    ensures Sorted(SortFields(fs)) && SameElements(SortFields(fs), fs)
  {
    if fs != [] {
      SortFieldsSorts(fs[1..]);
      assert forall g :: g in fs <==> g == fs[0] || g in fs[1..];
      assert forall g | g in fs[1..] :: g.key != fs[0].key;
      InsertSortedKeeps(fs[0], SortFields(fs[1..]));
    }
  }

  // There is one way to sort a set of fields.
  lemma {:induction false} SortedIsUnique(a: seq<Field>, b: seq<Field>)
    requires Sorted(a) && Sorted(b) && SameElements(a, b)
    ensures a == b
  {
    if b != [] {
      assert b[0] in b;
    }
    if a != [] {
      assert a[0] in a && a[0] in b && b[0] in a;
      LessTrichotomy(a[0].key, b[0].key);
      assert a[0] == b[0];
      forall f
        ensures f in a[1..] <==> f in b[1..]
      {
        LessTrichotomy(a[0].key, a[0].key);
        assert f in a[1..] <==> f in a && f != a[0];
        assert f in b[1..] <==> f in b && f != b[0];
      }
      SortedIsUnique(a[1..], b[1..]);
      assert a == [a[0]] + a[1..] && b == [b[0]] + b[1..];
    }
  }

  // ---------- Rebuilding the object ----------

  lemma {:induction false} InsertIndexKeeps(f: Field, fs: seq<Field>)
    requires DistinctKeys(fs) && forall g | g in fs :: g.key != f.key
    ensures DistinctKeys(InsertIndex(f, fs))
    ensures forall g :: g in InsertIndex(f, fs) <==> g == f || g in fs
  {
    if fs == [] || !IndexKey(fs[0].key) || NumericLess(f.key, fs[0].key) {
    } else {
      InsertIndexKeeps(f, fs[1..]);
      var rest := InsertIndex(f, fs[1..]);
      forall g | g in rest
        ensures g.key != fs[0].key
      {
      }
      assert forall g :: g in fs <==> g == fs[0] || g in fs[1..];
    }
  }

  lemma {:induction false} PutAllKeeps(fs: seq<Field>)
    requires DistinctKeys(fs)
    ensures DistinctKeys(PutAll(fs))
    ensures forall g :: g in PutAll(fs) <==> g in fs && g.key != PROTO
  {
    if fs != [] {
      var front, f := fs[..|fs| - 1], fs[|fs| - 1];
      PutAllKeeps(front);
      assert forall g :: g in fs <==> g == f || g in front;
      assert forall g | g in front :: g.key != f.key;
      if f.key != PROTO && IndexKey(f.key) {
        InsertIndexKeeps(f, PutAll(front));
      }
    }
  }

  function Kept(fs: seq<Field>): (r: seq<Field>)
    ensures forall f :: f in r <==> f in fs && f.key != PROTO
  {
    if fs == [] then []
    else if fs[|fs| - 1].key == PROTO then Kept(fs[..|fs| - 1])
    else Kept(fs[..|fs| - 1]) + [fs[|fs| - 1]]
  }

  lemma {:induction false} KeptSorted(fs: seq<Field>)
    requires Sorted(fs)
    ensures Sorted(Kept(fs))
    ensures PutAll(Kept(fs)) == PutAll(fs)
  {
    if fs != [] {
      var front, f := fs[..|fs| - 1], fs[|fs| - 1];
      hide Less, IndexKey, NumericLess, InsertIndex;
      KeptSorted(front);
      if f.key != PROTO {
        assert (Kept(front) + [f])[..|Kept(front)|] == Kept(front);
      }
    }
  }

  // Two objects with the same fields, the prototype key aside, are rebuilt alike.
  lemma RebuildAgrees(a: seq<Field>, b: seq<Field>)
    requires DistinctKeys(a) && DistinctKeys(b)
    requires forall f: Field | f.key != PROTO :: f in a <==> f in b
    ensures PutAll(SortFields(a)) == PutAll(SortFields(b))
  {
    SortFieldsSorts(a);
    SortFieldsSorts(b);
    KeptSorted(SortFields(a));
    KeptSorted(SortFields(b));
    SortedIsUnique(Kept(SortFields(a)), Kept(SortFields(b)));
  }

  function Mapped(fields: seq<Field>): (r: seq<Field>)
    ensures |r| == |fields|
    ensures forall i | 0 <= i < |r| :: r[i] == Field(fields[i].key, SortKeysRecursively(fields[i].value))
  {
    seq(|fields|, i requires 0 <= i < |fields| => Field(fields[i].key, SortKeysRecursively(fields[i].value)))
  }

  lemma ObjectForm(fields: seq<Field>)
    requires DistinctKeys(fields)
    ensures SortKeysRecursively(JObject(fields)) == JObject(PutAll(SortFields(Mapped(fields))))
    ensures DistinctKeys(SortKeysRecursively(JObject(fields)).fields)
    ensures forall g :: g in SortKeysRecursively(JObject(fields)).fields <==> g in Mapped(fields) && g.key != PROTO
  {
    assert Mapped(fields) == seq(|fields|, i requires 0 <= i < |fields| => Field(fields[i].key, SortKeysRecursively(fields[i].value)));
    SortFieldsSorts(Mapped(fields));
    SortedIsDistinct(SortFields(Mapped(fields)));
    PutAllKeeps(SortFields(Mapped(fields)));
  }

  lemma SortedIsDistinct(fs: seq<Field>)
    requires Sorted(fs)
    ensures DistinctKeys(fs)
  {
    forall i, j | 0 <= i < j < |fs|
      ensures fs[i].key != fs[j].key
    {
      LessTrichotomy(fs[i].key, fs[i].key);
    }
  }

  // ---------- Canonical forms ----------

  lemma {:induction false} CanonicalIsWellFormed(v: Json)
    requires WellFormed(v)
    ensures WellFormed(SortKeysRecursively(v))
  {
    match v
    case JArray(items) =>
      forall i | 0 <= i < |items|
        ensures WellFormed(SortKeysRecursively(items[i]))
      {
        CanonicalIsWellFormed(items[i]);
      }
    case JObject(fields) =>
      ObjectForm(fields);
      var sorted := SortKeysRecursively(v).fields;
      forall k | 0 <= k < |sorted|
        ensures WellFormed(sorted[k].value)
      {
        assert sorted[k] in Mapped(fields);
        var i :| 0 <= i < |fields| && Mapped(fields)[i] == sorted[k];
        CanonicalIsWellFormed(fields[i].value);
      }
    case _ =>
  }

  // Equal values have equal canonical forms ...
  lemma {:induction false} SameHasOneForm(a: Json, b: Json)
    requires WellFormed(a) && WellFormed(b) && Same(a, b, {PROTO})
    ensures SortKeysRecursively(a) == SortKeysRecursively(b)
  {
    match a
    case JArray(items) =>
      forall i | 0 <= i < |items|
        ensures SortKeysRecursively(items[i]) == SortKeysRecursively(b.items[i])
      {
        SameHasOneForm(items[i], b.items[i]);
      }
    case JObject(fields) =>
      var am, bm := Mapped(fields), Mapped(b.fields);
      forall i, j | 0 <= i < |fields| && 0 <= j < |b.fields| && fields[i].key == b.fields[j].key && fields[i].key != PROTO
        ensures am[i] == bm[j]
      {
        SameHasOneForm(fields[i].value, b.fields[j].value);
      }
      MappedAgree(fields, b.fields);
      RebuildAgrees(am, bm);
      ObjectForm(fields);
      ObjectForm(b.fields);
    case _ =>
  }

  lemma MappedAgree(a: seq<Field>, b: seq<Field>)
    requires forall key | key != PROTO :: HasKey(a, key) <==> HasKey(b, key)
    requires forall i, j | 0 <= i < |a| && 0 <= j < |b| && a[i].key == b[j].key && a[i].key != PROTO :: Mapped(a)[i] == Mapped(b)[j]
    ensures forall f: Field | f.key != PROTO :: f in Mapped(a) <==> f in Mapped(b)
  {
    forall f: Field | f.key != PROTO
      ensures f in Mapped(a) <==> f in Mapped(b)
    {
      if f in Mapped(a) {
        var i :| 0 <= i < |a| && Mapped(a)[i] == f;
        assert HasKey(a, f.key);
        var j :| 0 <= j < |b| && b[j].key == f.key;
      }
      if f in Mapped(b) {
        var j :| 0 <= j < |b| && Mapped(b)[j] == f;
        assert HasKey(b, f.key);
        var i :| 0 <= i < |a| && a[i].key == f.key;
      }
    }
  }

  // ... and values with one canonical form are equal.
  lemma {:induction false} OneFormIsSame(a: Json, b: Json)
    requires WellFormed(a) && WellFormed(b) && SortKeysRecursively(a) == SortKeysRecursively(b)
    ensures Same(a, b, {PROTO})
  {
    match a
    case JArray(items) =>
      forall i | 0 <= i < |items|
        ensures Same(items[i], b.items[i], {PROTO})
      {
        assert SortKeysRecursively(a).items[i] == SortKeysRecursively(b).items[i];
        OneFormIsSame(items[i], b.items[i]);
      }
    case JObject(fields) =>
      ObjectForm(fields);
      ObjectForm(b.fields);
      FormsShareKeys(fields, b.fields);
      FormsShareKeys(b.fields, fields);
      forall i, j | 0 <= i < |fields| && 0 <= j < |b.fields| && fields[i].key == b.fields[j].key && fields[i].key != PROTO
        ensures Same(fields[i].value, b.fields[j].value, {PROTO})
      {
        assert Mapped(fields)[i] in Mapped(b.fields);
        OneFormIsSame(fields[i].value, b.fields[j].value);
      }
    case _ =>
  }

  lemma FormsShareKeys(a: seq<Field>, b: seq<Field>)
    requires DistinctKeys(a) && DistinctKeys(b)
    requires SortKeysRecursively(JObject(a)) == SortKeysRecursively(JObject(b))
    ensures forall key | key != PROTO && HasKey(a, key) :: HasKey(b, key)
  {
    ObjectForm(a);
    ObjectForm(b);
    forall key | key != PROTO && HasKey(a, key)
      ensures HasKey(b, key)
    {
      var i :| 0 <= i < |a| && a[i].key == key;
      assert Mapped(a)[i] in Mapped(b);
      var j :| 0 <= j < |b| && Mapped(b)[j] == Mapped(a)[i];
    }
  }

  // Two values have the same canonical form exactly when they are equal up to key order at every
  // depth, apart from fields named __proto__, which the code loses.
  lemma CanonicalForm(a: Json, b: Json)
    requires WellFormed(a) && WellFormed(b)
    ensures SortKeysRecursively(a) == SortKeysRecursively(b) <==> Same(a, b, {"__proto__"})
  {
    if Same(a, b, {PROTO}) {
      SameHasOneForm(a, b);
    }
    if SortKeysRecursively(a) == SortKeysRecursively(b) {
      OneFormIsSame(a, b);
    }
  }

  lemma {:induction false} NothingIgnored(a: Json, b: Json)
    requires WithoutProto(a) && WithoutProto(b)
    ensures Same(a, b, {PROTO}) <==> Same(a, b, {})
  {
    match a
    case JArray(items) =>
      if b.JArray? && |items| == |b.items| {
        forall i | 0 <= i < |items|
          ensures Same(items[i], b.items[i], {PROTO}) <==> Same(items[i], b.items[i], {})
        {
          NothingIgnored(items[i], b.items[i]);
        }
      }
    case JObject(fields) =>
      if b.JObject? {
        assert !HasKey(fields, PROTO) && !HasKey(b.fields, PROTO);
        forall i, j | 0 <= i < |fields| && 0 <= j < |b.fields|
          ensures Same(fields[i].value, b.fields[j].value, {PROTO}) <==> Same(fields[i].value, b.fields[j].value, {})
        {
          NothingIgnored(fields[i].value, b.fields[j].value);
        }
      }
    case _ =>
  }

  // Without such fields canonical forms decide equality up to key order.
  lemma CanonicalFormDecides(a: Json, b: Json)
    requires WellFormed(a) && WellFormed(b) && WithoutProto(a) && WithoutProto(b)
    ensures SortKeysRecursively(a) == SortKeysRecursively(b) <==> Same(a, b, {})
  {
    CanonicalForm(a, b);
    NothingIgnored(a, b);
  }

  // JSON.parse can produce a field named __proto__, and values that differ in it collide.
  lemma ProtoFieldIsLost(x: Json)
    requires WellFormed(x)
    ensures WellFormed(JObject([Field(PROTO, x)])) && WellFormed(JObject([]))
    ensures SortKeysRecursively(JObject([Field(PROTO, x)])) == SortKeysRecursively(JObject([]))
    ensures !Same(JObject([Field(PROTO, x)]), JObject([]), {})
  {
    CanonicalForm(JObject([Field(PROTO, x)]), JObject([]));
    assert HasKey([Field(PROTO, x)], PROTO);
  }

  lemma FormHasKeys(fields: seq<Field>, key: string)
    requires DistinctKeys(fields) && key != PROTO
    ensures HasKey(fields, key) <==> HasKey(SortKeysRecursively(JObject(fields)).fields, key)
  {
    ObjectForm(fields);
    hide PutAll, SortFields, SortKeysRecursively, DistinctKeys;
    var sorted := SortKeysRecursively(JObject(fields)).fields;
    if HasKey(fields, key) {
      var i :| 0 <= i < |fields| && fields[i].key == key;
      assert Mapped(fields)[i] in sorted;
    }
    if HasKey(sorted, key) {
      var k :| 0 <= k < |sorted| && sorted[k].key == key;
      assert sorted[k] in Mapped(fields);
    }
  }

  lemma OnePlace(fs: seq<Field>, i: nat, j: nat)
    requires DistinctKeys(fs) && i < |fs| && j < |fs| && fs[i].key == fs[j].key
    ensures i == j
  {
  }

  lemma FormHasValue(fields: seq<Field>, i: nat, k: nat)
    requires DistinctKeys(fields) && i < |fields| && k < |SortKeysRecursively(JObject(fields)).fields|
    requires fields[i].key == SortKeysRecursively(JObject(fields)).fields[k].key
    ensures SortKeysRecursively(JObject(fields)).fields[k].value == SortKeysRecursively(fields[i].value)
  {
    ObjectForm(fields);
    hide PutAll, SortFields, SortKeysRecursively;
    var f := SortKeysRecursively(JObject(fields)).fields[k];
    assert f in SortKeysRecursively(JObject(fields)).fields;
    var j :| 0 <= j < |fields| && Mapped(fields)[j] == f;
    OnePlace(fields, i, j);
  }

  lemma {:induction false} SameAsForm(v: Json)
    requires WellFormed(v)
    ensures Same(v, SortKeysRecursively(v), {PROTO})
  {
    match v
    case JArray(items) =>
      forall i | 0 <= i < |items|
        ensures Same(items[i], SortKeysRecursively(items[i]), {PROTO})
      {
        SameAsForm(items[i]);
      }
    case JObject(fields) =>
      hide PutAll, SortFields;
      forall key | key != PROTO
        ensures HasKey(fields, key) <==> HasKey(SortKeysRecursively(v).fields, key)
      {
        FormHasKeys(fields, key);
      }
      forall i | 0 <= i < |fields|
        ensures Same(fields[i].value, SortKeysRecursively(fields[i].value), {PROTO})
      {
        SameAsForm(fields[i].value);
      }
      forall i, k | 0 <= i < |fields| && 0 <= k < |SortKeysRecursively(v).fields| && fields[i].key == SortKeysRecursively(v).fields[k].key
        ensures Same(fields[i].value, SortKeysRecursively(v).fields[k].value, {PROTO})
      {
        FormHasValue(fields, i, k);
      }
    case _ =>
  }

  lemma Idempotent(v: Json)
    requires WellFormed(v)
    ensures SortKeysRecursively(SortKeysRecursively(v)) == SortKeysRecursively(v)
  {
    SameAsForm(v);
    CanonicalIsWellFormed(v);
    SameHasOneForm(v, SortKeysRecursively(v));
  }

  // ---------- Is the canonical form really sorted? ----------

  lemma {:induction false} SortedStaysPut(fs: seq<Field>)
    requires forall f | f in fs :: f.key != PROTO && !IndexKey(f.key)
    ensures PutAll(fs) == fs
  {
    if fs != [] {
      SortedStaysPut(fs[..|fs| - 1]);
      assert fs[|fs| - 1] in fs;
      assert fs == fs[..|fs| - 1] + [fs[|fs| - 1]];
    }
  }

  // The keys of a canonical object are in lexicographic order when none reads as an array index.
  lemma LexicographicWithoutIndexKeys(fields: seq<Field>)
    requires DistinctKeys(fields) && forall f | f in fields :: !IndexKey(f.key)
    ensures Sorted(SortKeysRecursively(JObject(fields)).fields)
  {
    ObjectForm(fields);
    var sorted := SortFields(Mapped(fields));
    SortFieldsSorts(Mapped(fields));
    KeptSorted(sorted);
    forall f | f in Kept(sorted)
      ensures f.key != PROTO && !IndexKey(f.key)
    {
      assert f in Mapped(fields);
    }
    SortedStaysPut(Kept(sorted));
  }

  // Index keys come out in numeric order instead, whatever order they were assigned in.
  lemma IndexKeysAreNumeric(x: Json, y: Json)
    ensures var out := SortKeysRecursively(JObject([Field("10", x), Field("9", y)]));
            out.JObject? && |out.fields| == 2 && out.fields[0].key == "9" && out.fields[1].key == "10" && !Sorted(out.fields)
  {
    hide PutAll, SortFields, SortKeysRecursively;
    var fields := [Field("10", x), Field("9", y)];
    ObjectForm(fields);
    var tx, ny := Mapped(fields)[0], Mapped(fields)[1];
    assert Mapped(fields) == [tx, ny];
    TenBeforeNine();
    SortTwo(tx, ny);
    PutTwo(tx, ny);
  }

  lemma TenBeforeNine()
    ensures Less("10", "9") && !Less("9", "10")
    ensures IndexKey("10") && IndexKey("9") && NumericLess("9", "10") && "10" != PROTO && "9" != PROTO
  {
  }

  lemma SortTwo(a: Field, b: Field)
    requires Less(a.key, b.key)
    ensures SortFields([a, b]) == [a, b]
  {
    hide Less;
    assert SortFields([b]) == InsertSorted(b, []) == [b];
    assert [a, b][1..] == [b];
    assert SortFields([a, b]) == InsertSorted(a, [b]) == [a, b];
  }

  lemma PutTwo(a: Field, b: Field)
    requires IndexKey(a.key) && IndexKey(b.key) && NumericLess(b.key, a.key) && a.key != PROTO && b.key != PROTO
    ensures PutAll([a, b]) == [b, a]
  {
    hide IndexKey, NumericLess;
    assert [a][..0] == [] && [a, b][..1] == [a];
    assert PutAll([a]) == Put([], a) == [a];
    assert PutAll([a, b]) == Put([a], b) == [b, a];
  }

  // ---------- The exact order of a canonical object ----------

  // Keys that read as array indices come first, in numeric order; the others follow in
  // lexicographic order.
  predicate KeyBefore(a: string, b: string) {
    if IndexKey(a) then !IndexKey(b) || NumericLess(a, b) else !IndexKey(b) && Less(a, b)
  }

  ghost predicate InKeyOrder(fs: seq<Field>) {
    forall i, j :: 0 <= i < j < |fs| ==> KeyBefore(fs[i].key, fs[j].key)
  }

  lemma NumericOrder(a: string, b: string, c: string)
    ensures a == b || NumericLess(a, b) || NumericLess(b, a)
    ensures !(NumericLess(a, b) && NumericLess(b, a)) && !NumericLess(a, a)
    ensures NumericLess(a, b) && NumericLess(b, c) ==> NumericLess(a, c)
  {
    LessTrichotomy(a, b);
    if Less(a, b) && Less(b, c) {
      LessTransitive(a, b, c);
    }
  }

  lemma KeyOrderIsOrder(a: string, b: string)
    requires a != b
    ensures KeyBefore(a, b) <==> !KeyBefore(b, a)
  {
    NumericOrder(a, b, b);
    LessTrichotomy(a, b);
  }

  lemma {:induction false} InsertIndexInOrder(f: Field, fs: seq<Field>)
    requires InKeyOrder(fs) && IndexKey(f.key) && forall g | g in fs :: g.key != f.key
    requires DistinctKeys(fs)
    ensures InKeyOrder(InsertIndex(f, fs))
  {
    hide IndexKey, NumericLess;
    if fs != [] {
      NumericOrder(f.key, fs[0].key, fs[0].key);
      if !IndexKey(fs[0].key) || NumericLess(f.key, fs[0].key) {
        forall j | 0 < j < |fs|
          ensures KeyBefore(f.key, fs[j].key)
        {
          NumericOrder(f.key, fs[0].key, fs[j].key);
        }
      } else {
        InsertIndexInOrder(f, fs[1..]);
        InsertIndexKeeps(f, fs[1..]);
        var rest := InsertIndex(f, fs[1..]);
        forall j | 0 <= j < |rest|
          ensures KeyBefore(fs[0].key, rest[j].key)
        {
          assert rest[j] in rest;
        }
      }
    }
  }

  lemma {:induction false} PutAllInOrder(fs: seq<Field>)
    requires Sorted(fs)
    ensures InKeyOrder(PutAll(fs))
  {
    hide IndexKey, NumericLess;
    if fs != [] {
      var front, f := fs[..|fs| - 1], fs[|fs| - 1];
      PutAllInOrder(front);
      SortedIsDistinct(fs);
      PutAllKeeps(front);
      if f.key != PROTO && IndexKey(f.key) {
        assert forall g | g in front :: g.key != f.key;
        InsertIndexInOrder(f, PutAll(front));
      } else if f.key != PROTO {
        forall j | 0 <= j < |PutAll(front)|
          ensures KeyBefore(PutAll(front)[j].key, f.key)
        {
          assert PutAll(front)[j] in PutAll(front);
        }
      }
    }
  }

  // The keys of a canonical object are in exactly this order.
  lemma CanonicalKeyOrder(fields: seq<Field>)
    requires DistinctKeys(fields)
    ensures InKeyOrder(SortKeysRecursively(JObject(fields)).fields)
  {
    ObjectForm(fields);
    SortFieldsSorts(Mapped(fields));
    PutAllInOrder(SortFields(Mapped(fields)));
  }

  // On the keys of these fields the numeric-first order and the lexicographic order agree.
  ghost predicate OrdersAgree(fields: seq<Field>) {
    forall i, j | 0 <= i < |fields| && 0 <= j < |fields| && fields[i].key != PROTO && fields[j].key != PROTO ::
      KeyBefore(fields[i].key, fields[j].key) ==> Less(fields[i].key, fields[j].key)
  }

  lemma ObjectSortedExactlyWhen(fields: seq<Field>)
    requires DistinctKeys(fields)
    ensures Sorted(SortKeysRecursively(JObject(fields)).fields) <==> OrdersAgree(fields)
  {
    hide KeyBefore, Less;
    ObjectForm(fields);
    CanonicalKeyOrder(fields);
    var out := SortKeysRecursively(JObject(fields)).fields;
    if OrdersAgree(fields) {
      forall i, j | 0 <= i < j < |out|
        ensures Less(out[i].key, out[j].key)
      {
        assert out[i] in Mapped(fields) && out[j] in Mapped(fields);
      }
    }
    if Sorted(out) {
      forall i, j | 0 <= i < |fields| && 0 <= j < |fields| && fields[i].key != PROTO && fields[j].key != PROTO
                    && KeyBefore(fields[i].key, fields[j].key)
        ensures Less(fields[i].key, fields[j].key)
      {
        assert Mapped(fields)[i] in out && Mapped(fields)[j] in out;
        var k, m :| 0 <= k < |out| && 0 <= m < |out| && out[k] == Mapped(fields)[i] && out[m] == Mapped(fields)[j];
        NotBeforeItself(fields[i].key);
        if k != m {
          KeyOrderIsOrder(out[k].key, out[m].key);
        }
      }
    }
  }

  lemma NotBeforeItself(a: string)
    ensures !KeyBefore(a, a)
  {
    NumericOrder(a, a, a);
    LessTrichotomy(a, a);
  }

  // The same at every depth.
  ghost predicate SortedThroughout(v: Json) {
    match v
    case JArray(items) => forall i | 0 <= i < |items| :: SortedThroughout(items[i])
    case JObject(fields) => Sorted(fields) && forall i | 0 <= i < |fields| :: SortedThroughout(fields[i].value)
    case _ => true
  }

  ghost predicate OrdersAgreeThroughout(v: Json) {
    match v
    case JArray(items) => forall i | 0 <= i < |items| :: OrdersAgreeThroughout(items[i])
    case JObject(fields) =>
      && OrdersAgree(fields)
      && forall i | 0 <= i < |fields| && fields[i].key != PROTO :: OrdersAgreeThroughout(fields[i].value)
    case _ => true
  }

  // A canonical form is in lexicographic order at every depth exactly when the two orders agree on
  // the keys of every object in the value.
  lemma {:induction false} LexicographicExactlyWhen(v: Json)
    requires WellFormed(v)
    ensures SortedThroughout(SortKeysRecursively(v)) <==> OrdersAgreeThroughout(v)
  {
    hide OrdersAgree, Sorted;
    match v
    case JArray(items) =>
      forall i | 0 <= i < |items|
        ensures SortedThroughout(SortKeysRecursively(items[i])) <==> OrdersAgreeThroughout(items[i])
      {
        LexicographicExactlyWhen(items[i]);
      }
      assert forall i | 0 <= i < |items| :: SortKeysRecursively(v).items[i] == SortKeysRecursively(items[i]);
    case JObject(fields) =>
      ObjectSortedExactlyWhen(fields);
      ObjectForm(fields);
      forall i | 0 <= i < |fields|
        ensures SortedThroughout(SortKeysRecursively(fields[i].value)) <==> OrdersAgreeThroughout(fields[i].value)
      {
        LexicographicExactlyWhen(fields[i].value);
      }
      ValuesCorrespond(fields);
    case _ =>
  }

  lemma ValuesCorrespond(fields: seq<Field>)
    requires DistinctKeys(fields)
    ensures var out := SortKeysRecursively(JObject(fields)).fields;
            (forall k | 0 <= k < |out| :: SortedThroughout(out[k].value))
            <==> forall i | 0 <= i < |fields| && fields[i].key != PROTO :: SortedThroughout(SortKeysRecursively(fields[i].value))
  {
    ObjectForm(fields);
    hide PutAll, SortFields, DistinctKeys, SortedThroughout, SortKeysRecursively;
    var out := SortKeysRecursively(JObject(fields)).fields;
    forall k | 0 <= k < |out|
      ensures exists i :: 0 <= i < |fields| && fields[i].key != PROTO && out[k].value == SortKeysRecursively(fields[i].value)
    {
      assert out[k] in Mapped(fields);
      var i :| 0 <= i < |fields| && Mapped(fields)[i] == out[k];
    }
    forall i | 0 <= i < |fields| && fields[i].key != PROTO
      ensures exists k :: 0 <= k < |out| && out[k].value == SortKeysRecursively(fields[i].value)
    {
      assert Mapped(fields)[i] in Mapped(fields) && Mapped(fields)[i] in out;
      var k :| 0 <= k < |out| && out[k] == Mapped(fields)[i];
    }
  }

  // ---------- The order in which objects enumerate their keys ----------

  // Index keys first and in numeric order; the other keys in any order.
  ghost predicate EnumerationOrder(fs: seq<Field>) {
    forall i, j :: 0 <= i < j < |fs| && IndexKey(fs[j].key) ==> IndexKey(fs[i].key) && NumericLess(fs[i].key, fs[j].key)
  }

  // A value as the language can have it.
  ghost predicate Enumerated(v: Json) {
    match v
    case JArray(items) => forall i | 0 <= i < |items| :: Enumerated(items[i])
    case JObject(fields) => EnumerationOrder(fields) && forall i | 0 <= i < |fields| :: Enumerated(fields[i].value)
    case _ => true
  }

  // Canonicalisation yields such values, whatever order its input lists the keys in.
  lemma {:induction false} CanonicalIsEnumerated(v: Json)
    requires WellFormed(v)
    ensures Enumerated(SortKeysRecursively(v))
  {
    match v
    case JArray(items) =>
      forall i | 0 <= i < |items|
        ensures Enumerated(SortKeysRecursively(items[i]))
      {
        CanonicalIsEnumerated(items[i]);
      }
    case JObject(fields) =>
      ObjectForm(fields);
      CanonicalKeyOrder(fields);
      var out := SortKeysRecursively(v).fields;
      assert EnumerationOrder(out) by {
        hide IndexKey, NumericLess, Less;
      }
      forall k | 0 <= k < |out|
        ensures Enumerated(out[k].value)
      {
        assert out[k] in Mapped(fields);
        var i :| 0 <= i < |fields| && Mapped(fields)[i] == out[k];
        CanonicalIsEnumerated(fields[i].value);
      }
    case _ =>
  }
}
