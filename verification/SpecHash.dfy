// The hash of an execution spec: canonical content, without the hash's own field
// (canonicalSerialize and computeSpecHash in src/execution/execution-spec-persistence.ts).
module SpecHash {
  import opened SpecCanonical
  import opened Wrappers

  // JSON.stringify, JSON.parse, the validators and the digest are code elsewhere.
  datatype Codec = Codec(
    stringify: Json -> string,
    parse: string -> Option<Json>,
    structural: Json -> bool,
    semantic: Json -> bool,
    digest: string -> string)

  function Decimal(n: nat): (r: string)
    ensures r != ""
  {
    if n < 10 then ["0123456789"[n]] else Decimal(n / 10) + ["0123456789"[n % 10]]
  }

  // The fields an object spread copies.
  function Spread(v: Json): seq<Field> {
    match v
    case JObject(fields) => fields
    case JArray(items) => seq(|items|, i requires 0 <= i < |items| => Field(Decimal(i), items[i]))
    case JString(text) => seq(|text|, i requires 0 <= i < |text| => Field(Decimal(i), JString([text[i]])))
    case _ => []
  }

  // { ...fields, key: value }
  function WithField(fields: seq<Field>, key: string, value: Json): seq<Field> {
    if fields == [] then [Field(key, value)]
    else if fields[0].key == key then [Field(key, value)] + fields[1..]
    else [fields[0]] + WithField(fields[1..], key, value)
  }

  function Lookup(fields: seq<Field>, key: string): Option<Json> {
    if fields == [] then None else if fields[0].key == key then Some(fields[0].value) else Lookup(fields[1..], key)
  }

  function Metadata(spec: Json): seq<Field> {
    if spec.JObject? && Lookup(spec.fields, "metadata").Some? then Spread(Lookup(spec.fields, "metadata").value) else []
  }

  // { ...spec, metadata: { ...spec.metadata, specHash: value } }
  function WithSpecHash(spec: Json, value: Json): Json {
    JObject(WithField(Spread(spec), "metadata", JObject(WithField(Metadata(spec), "specHash", value))))
  }

  function CanonicalSerialize(c: Codec, spec: Json): string {
    c.stringify(SortKeysRecursively(WithSpecHash(spec, JString(""))))
  }

  function ComputeSpecHash(c: Codec, spec: Json): string {
    c.digest(CanonicalSerialize(c, spec))
  }

  // ---------- Its own field does not matter ----------

  lemma {:induction false} WithFieldTwice(fields: seq<Field>, key: string, x: Json, y: Json)
    ensures WithField(WithField(fields, key, x), key, y) == WithField(fields, key, y)
    ensures Lookup(WithField(fields, key, x), key) == Some(x)
  {
    if fields != [] && fields[0].key != key {
      WithFieldTwice(fields[1..], key, x, y);
      assert WithField(fields, key, x)[1..] == WithField(fields[1..], key, x);
    }
  }

  lemma WithSpecHashTwice(spec: Json, x: Json, y: Json)
    ensures WithSpecHash(WithSpecHash(spec, x), y) == WithSpecHash(spec, y)
  {
    var fields, metadata := Spread(spec), Metadata(spec);
    var withX := JObject(WithField(metadata, "specHash", x));
    WithFieldTwice(metadata, "specHash", x, y);
    WithFieldTwice(fields, "metadata", withX, JObject(WithField(metadata, "specHash", y)));
  }

  // Writing any value into metadata.specHash leaves the hash alone.
  lemma HashIgnoresItself(c: Codec, spec: Json, x: Json)
    ensures ComputeSpecHash(c, WithSpecHash(spec, x)) == ComputeSpecHash(c, spec)
  {
    WithSpecHashTwice(spec, x, JString(""));
  }

  // ---------- Key order does not matter ----------

  lemma {:induction false} DecimalIsInjective(m: nat, n: nat)
    requires Decimal(m) == Decimal(n)
    ensures m == n
  {
    if m >= 10 && n >= 10 {
      assert Decimal(m)[..|Decimal(m)| - 1] == Decimal(m / 10);
      assert Decimal(n)[..|Decimal(n)| - 1] == Decimal(n / 10);
      DecimalIsInjective(m / 10, n / 10);
      DigitIsInjective(m % 10, n % 10);
    } else if m < 10 && n < 10 {
      DigitIsInjective(m, n);
    }
  }

  lemma DigitIsInjective(a: nat, b: nat)
    requires a < 10 && b < 10 && (["0123456789"[a]] == ["0123456789"[b]] || "0123456789"[a] == "0123456789"[b])
    ensures a == b
  {
    assert "0123456789"[a] == "0123456789"[b];
  }

  lemma SpreadIsDistinct(v: Json)
    requires WellFormed(v)
    ensures WellFormed(JObject(Spread(v)))
  {
    forall i, j | 0 <= i < j < |Spread(v)|
      ensures Spread(v)[i].key != Spread(v)[j].key
    {
      if Spread(v)[i].key == Spread(v)[j].key && !v.JObject? {
        DecimalIsInjective(i, j);
      }
    }
  }

  lemma SpreadAgrees(a: Json, b: Json, ignored: set<string>)
    requires Same(a, b, ignored)
    ensures Same(JObject(Spread(a)), JObject(Spread(b)), ignored)
  {
    var x, y := Spread(a), Spread(b);
    if !a.JObject? {
      forall key
        ensures HasKey(x, key) <==> HasKey(y, key)
      {
        assert |x| == |y| && forall i | 0 <= i < |x| :: x[i].key == y[i].key;
      }
      forall i, j | 0 <= i < |x| && 0 <= j < |y| && x[i].key == y[j].key
        ensures Same(x[i].value, y[j].value, ignored)
      {
        DecimalIsInjective(i, j);
      }
    }
  }

  lemma {:induction false} LookupFinds(fields: seq<Field>, key: string)
    ensures Lookup(fields, key).Some? <==> HasKey(fields, key)
    ensures Lookup(fields, key).Some? ==> exists i :: 0 <= i < |fields| && fields[i] == Field(key, Lookup(fields, key).value)
  {
    if fields != [] {
      LookupFinds(fields[1..], key);
      if fields[0].key == key {
        assert fields[0] == Field(key, Lookup(fields, key).value);
      } else {
        if HasKey(fields, key) {
          var i :| 0 <= i < |fields| && fields[i].key == key;
          assert fields[1..][i - 1].key == key;
        }
        if Lookup(fields[1..], key).Some? {
          var i :| 0 <= i < |fields[1..]| && fields[1..][i] == Field(key, Lookup(fields, key).value);
          assert fields[i + 1] == fields[1..][i];
        }
      }
    }
  }

  // What WithField holds, field by field.
  lemma {:induction false} WithFieldHolds(fields: seq<Field>, key: string, value: Json)
    requires DistinctKeys(fields)
    ensures DistinctKeys(WithField(fields, key, value))
    ensures forall f :: f in WithField(fields, key, value) <==> f == Field(key, value) || (f in fields && f.key != key)
  {
    if fields != [] {
      assert forall f :: f in fields <==> f == fields[0] || f in fields[1..];
      if fields[0].key != key {
        WithFieldHolds(fields[1..], key, value);
        assert forall f | f in WithField(fields[1..], key, value) :: f.key != fields[0].key;
      } else {
        assert forall f | f in fields[1..] :: f.key != key;
      }
    }
  }

  lemma WithFieldWellFormed(fields: seq<Field>, key: string, value: Json)
    requires WellFormed(JObject(fields)) && WellFormed(value)
    ensures WellFormed(JObject(WithField(fields, key, value)))
  {
    WithFieldHolds(fields, key, value);
    var r := WithField(fields, key, value);
    forall k | 0 <= k < |r|
      ensures WellFormed(r[k].value)
    {
      assert r[k] in r;
    }
  }

  lemma WithFieldAgrees(a: seq<Field>, b: seq<Field>, key: string, x: Json, y: Json, ignored: set<string>)
    requires DistinctKeys(a) && DistinctKeys(b) && Same(JObject(a), JObject(b), ignored) && Same(x, y, ignored)
    ensures Same(JObject(WithField(a, key, x)), JObject(WithField(b, key, y)), ignored)
  {
    WithFieldHolds(a, key, x);
    WithFieldHolds(b, key, y);
    var p, q := WithField(a, key, x), WithField(b, key, y);
    forall k | k !in ignored
      ensures HasKey(p, k) <==> HasKey(q, k)
    {
      WithFieldKeys(a, key, x, k);
      WithFieldKeys(b, key, y, k);
      assert HasKey(a, k) <==> HasKey(b, k);
    }
    forall i, j | 0 <= i < |p| && 0 <= j < |q| && p[i].key == q[j].key && p[i].key !in ignored
      ensures Same(p[i].value, q[j].value, ignored)
    {
      assert p[i] in p && q[j] in q;
      if p[i].key != key {
        var m :| 0 <= m < |a| && a[m] == p[i];
        var n :| 0 <= n < |b| && b[n] == q[j];
      }
    }
  }

  lemma WithFieldKeys(fields: seq<Field>, key: string, value: Json, k: string)
    requires DistinctKeys(fields)
    ensures HasKey(WithField(fields, key, value), k) <==> k == key || HasKey(fields, k)
  {
    WithFieldHolds(fields, key, value);
    var r := WithField(fields, key, value);
    assert Field(key, value) in r;
    if HasKey(r, k) {
      var i :| 0 <= i < |r| && r[i].key == k;
      assert r[i] in r;
    }
    if HasKey(fields, k) {
      var i :| 0 <= i < |fields| && fields[i].key == k;
      assert k != key ==> fields[i] in r;
    }
  }

  lemma MetadataWellFormed(spec: Json)
    requires WellFormed(spec)
    ensures WellFormed(JObject(Metadata(spec)))
  {
    if spec.JObject? {
      LookupFinds(spec.fields, "metadata");
      if Lookup(spec.fields, "metadata").Some? {
        SpreadIsDistinct(Lookup(spec.fields, "metadata").value);
      }
    }
  }

  lemma MetadataAgrees(a: Json, b: Json)
    requires WellFormed(a) && WellFormed(b) && Same(a, b, {PROTO})
    ensures Same(JObject(Metadata(a)), JObject(Metadata(b)), {PROTO})
  {
    if a.JObject? {
      LookupFinds(a.fields, "metadata");
      LookupFinds(b.fields, "metadata");
      assert HasKey(a.fields, "metadata") <==> HasKey(b.fields, "metadata");
      if HasKey(a.fields, "metadata") {
        SpreadAgrees(Lookup(a.fields, "metadata").value, Lookup(b.fields, "metadata").value, {PROTO});
      }
    }
  }

  lemma WithSpecHashWellFormed(spec: Json, value: Json)
    requires WellFormed(spec) && WellFormed(value)
    ensures WellFormed(WithSpecHash(spec, value))
  {
    MetadataWellFormed(spec);
    SpreadIsDistinct(spec);
    WithFieldWellFormed(Metadata(spec), "specHash", value);
    WithFieldWellFormed(Spread(spec), "metadata", JObject(WithField(Metadata(spec), "specHash", value)));
  }

  // Specs that differ in the order of keys only, at any depth, hash alike.
  lemma HashIgnoresKeyOrder(c: Codec, a: Json, b: Json)
    requires WellFormed(a) && WellFormed(b) && Same(a, b, {PROTO})
    ensures ComputeSpecHash(c, a) == ComputeSpecHash(c, b)
  {
    MetadataAgrees(a, b);
    MetadataWellFormed(a);
    MetadataWellFormed(b);
    SpreadAgrees(a, b, {PROTO});
    SpreadIsDistinct(a);
    SpreadIsDistinct(b);
    WithFieldAgrees(Metadata(a), Metadata(b), "specHash", JString(""), JString(""), {PROTO});
    WithFieldAgrees(Spread(a), Spread(b), "metadata", JObject(WithField(Metadata(a), "specHash", JString(""))),
                    JObject(WithField(Metadata(b), "specHash", JString(""))), {PROTO});
    WithSpecHashWellFormed(a, JString(""));
    WithSpecHashWellFormed(b, JString(""));
    CanonicalForm(WithSpecHash(a, JString("")), WithSpecHash(b, JString("")));
  }

  // ---------- Values stay as the language has them ----------

  lemma {:induction false} WithFieldEnumerated(fields: seq<Field>, key: string, value: Json)
    requires EnumerationOrder(fields) && !IndexKey(key)
    ensures EnumerationOrder(WithField(fields, key, value))
    ensures forall f | f in WithField(fields, key, value) :: f in fields || f == Field(key, value)
  {
    hide IndexKey, NumericLess;
    if fields != [] && fields[0].key != key {
      WithFieldEnumerated(fields[1..], key, value);
      var rest := WithField(fields[1..], key, value);
      forall j | 0 <= j < |rest| && IndexKey(rest[j].key)
        ensures IndexKey(fields[0].key) && NumericLess(fields[0].key, rest[j].key)
      {
        assert rest[j] in rest;
      }
    }
  }

  lemma ObjectEnumerated(fields: seq<Field>, key: string, value: Json)
    requires Enumerated(JObject(fields)) && Enumerated(value) && !IndexKey(key)
    ensures Enumerated(JObject(WithField(fields, key, value)))
  {
    WithFieldEnumerated(fields, key, value);
    var r := WithField(fields, key, value);
    forall k | 0 <= k < |r|
      ensures Enumerated(r[k].value)
    {
      assert r[k] in r;
    }
  }

  // An object whose metadata, if any, is null or an object.
  predicate HasSpecShape(spec: Json) {
    spec.JObject? && match Lookup(spec.fields, "metadata")
                     case None => true
                     case Some(m) => m.JNull? || m.JObject?
  }

  lemma WithSpecHashEnumerated(spec: Json, hash: string)
    requires HasSpecShape(spec) && Enumerated(spec)
    ensures Enumerated(WithSpecHash(spec, JString(hash)))
  {
    assert 'm' in "metadata" && 's' in "specHash";
    LookupFinds(spec.fields, "metadata");
    assert Enumerated(JObject(Metadata(spec)));
    ObjectEnumerated(Metadata(spec), "specHash", JString(hash));
    ObjectEnumerated(spec.fields, "metadata", JObject(WithField(Metadata(spec), "specHash", JString(hash))));
  }

  // ---------- What exactly is hashed ----------

  lemma {:induction false} WithFieldElsewhere(fields: seq<Field>, key: string, value: Json, other: string)
    requires other != key
    ensures Lookup(WithField(fields, key, value), other) == Lookup(fields, other)
  {
    if fields != [] && fields[0].key != key {
      WithFieldElsewhere(fields[1..], key, value, other);
      assert WithField(fields, key, value)[1..] == WithField(fields[1..], key, value);
    } else if fields != [] {
      assert WithField(fields, key, value)[1..] == fields[1..];
    }
  }

  // Writing the hash sets metadata.specHash and nothing else, making the metadata if there are none.
  lemma OnlyTheHashIsWritten(spec: Json, value: Json)
    requires HasSpecShape(spec)
    ensures var out := WithSpecHash(spec, value);
            && out.JObject? && Lookup(out.fields, "metadata").Some? && Lookup(out.fields, "metadata").value.JObject?
            && (forall key | key != "metadata" :: Lookup(out.fields, key) == Lookup(spec.fields, key))
            && var after := Lookup(out.fields, "metadata").value.fields;
               && Lookup(after, "specHash") == Some(value)
               && var before := Lookup(spec.fields, "metadata");
                  forall key | key != "specHash" ::
                    Lookup(after, key) == if before.Some? && before.value.JObject? then Lookup(before.value.fields, key) else None
  {
    var metadata := WithField(Metadata(spec), "specHash", value);
    WithFieldTwice(Metadata(spec), "specHash", value, value);
    WithFieldTwice(spec.fields, "metadata", JObject(metadata), JObject(metadata));
    forall key | key != "metadata"
      ensures Lookup(WithField(spec.fields, "metadata", JObject(metadata)), key) == Lookup(spec.fields, key)
    {
      WithFieldElsewhere(spec.fields, "metadata", JObject(metadata), key);
    }
    forall key | key != "specHash"
      ensures Lookup(metadata, key) == Lookup(Metadata(spec), key)
    {
      WithFieldElsewhere(Metadata(spec), "specHash", value, key);
    }
    hide WithField;
  }

  // Where serialisation tells values apart, two specs have the same text digested exactly when they
  // are equal up to key order once both have an empty hash written.
  lemma HashedTextDecides(c: Codec, a: Json, b: Json)
    requires WellFormed(a) && WellFormed(b)
    requires forall v, w :: c.stringify(v) == c.stringify(w) ==> v == w
    ensures CanonicalSerialize(c, a) == CanonicalSerialize(c, b)
            <==> Same(WithSpecHash(a, JString("")), WithSpecHash(b, JString("")), {"__proto__"})
    ensures ComputeSpecHash(c, a) == c.digest(CanonicalSerialize(c, a))
  {
    WithSpecHashWellFormed(a, JString(""));
    WithSpecHashWellFormed(b, JString(""));
    CanonicalForm(WithSpecHash(a, JString("")), WithSpecHash(b, JString("")));
    hide SortKeysRecursively, WithSpecHash, Same;
  }
}
