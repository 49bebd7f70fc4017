/** The validated record built by `validatedProxy`: two buckets, `data` for
    the last value of each field that passed its chain and `errors` for the
    message of each field whose last value failed.  The Proxy `set` trap
    becomes the explicit transition `Write`, the `get` trap the accessor
    `Get`, and the construction loop the method `Create`. */
module ValidatedProxy {
  import opened JsValues
  import opened Validator

  /** Field name to rule chain; only the schema's own keys count. */
  type Schema = map<string, Chain>

  /** The proxy's target object `{ data, errors }`. */
  datatype Record = Record(data: map<string, JsValue>, errors: map<string, string>)

  /** The target as first allocated: both buckets empty. */
  const Empty: Record := Record(map[], map[])

  /** The `set` trap's result: the new target and the boolean it returns. */
  datatype WriteResult = WriteResult(record: Record, accepted: bool)

  /** No field is in both buckets. */
  predicate Disjoint(rec: Record) {
    rec.data.Keys !! rec.errors.Keys
  }

  /** Both buckets hold only fields the schema names. */
  predicate WithinSchema(rec: Record, schema: Schema) {
    rec.data.Keys <= schema.Keys && rec.errors.Keys <= schema.Keys
  }

  /** The two records hold the same entries, in both buckets, for `k`. */
  predicate SameEntry(a: Record, b: Record, k: string) {
    && (k in a.data <==> k in b.data)
    && (k in a.data ==> a.data[k] == b.data[k])
    && (k in a.errors <==> k in b.errors)
    && (k in a.errors ==> a.errors[k] == b.errors[k])
  }

  /** The `set` trap: `proxy[field] = value`.  A field outside the schema is
      refused and nothing changes; otherwise the field's chain judges the
      value, which lands in `data` on a pass and its message in `errors` on a
      failure, the field being removed from the other bucket.  Either way the
      write is accepted. */
  function Write(rec: Record, schema: Schema, field: string, value: JsValue): (w: WriteResult)
    ensures w.accepted <==> field in schema
    ensures field !in schema ==> w.record == rec
    ensures field in schema && Validate(schema[field], value).Valid? ==>
      field in w.record.data && w.record.data[field] == value && field !in w.record.errors
    ensures field in schema && Validate(schema[field], value).Invalid? ==>
      field in w.record.errors && w.record.errors[field] == Validate(schema[field], value).message
      && field !in w.record.data
    ensures forall k :: k != field ==> SameEntry(rec, w.record, k)
  {
    if field !in schema then WriteResult(rec, false)
    else
      var result := Validate(schema[field], value);
      if result.Invalid? then
        WriteResult(Record(rec.data - {field}, rec.errors[field := result.message]), true)
      else
        WriteResult(Record(rec.data[field := value], rec.errors - {field}), true)
  }

  /** The record after a write of a passing value. */
  lemma WritePassing(rec: Record, schema: Schema, field: string, value: JsValue)
    requires field in schema && Validate(schema[field], value).Valid?
    ensures Write(rec, schema, field, value).record == Record(rec.data[field := value], rec.errors - {field})
  {
  }

  /** The record after a write of a failing value. */
  lemma WriteFailing(rec: Record, schema: Schema, field: string, value: JsValue, message: string)
    requires field in schema && Validate(schema[field], value) == Invalid(message)
    ensures Write(rec, schema, field, value).record == Record(rec.data - {field}, rec.errors[field := message])
  {
  }

  /** Every write keeps the buckets disjoint and inside the schema. */
  lemma WritePreservesInvariant(rec: Record, schema: Schema, field: string, value: JsValue)
    requires Disjoint(rec) && WithinSchema(rec, schema)
    ensures Disjoint(Write(rec, schema, field, value).record)
    ensures WithinSchema(Write(rec, schema, field, value).record, schema)
  {
  }

  /** Writing the same value to the same field twice leaves the record as
      writing it once does. */
  lemma WriteIdempotent(rec: Record, schema: Schema, field: string, value: JsValue)
    ensures var once := Write(rec, schema, field, value);
      Write(once.record, schema, field, value) == once
  {
    WriteLastWins(rec, schema, field, value, value);
  }

  /** A write to a field erases every trace of earlier writes to it: the last
      write wins. */
  lemma WriteLastWins(rec: Record, schema: Schema, field: string, v1: JsValue, v2: JsValue)
    ensures Write(Write(rec, schema, field, v1).record, schema, field, v2)
         == Write(rec, schema, field, v2)
  {
    if field in schema {
      var first := Write(rec, schema, field, v1).record;
      var twice := Write(first, schema, field, v2).record;
      var once := Write(rec, schema, field, v2).record;
      forall k
        ensures SameEntry(twice, once, k)
      {
        if k != field {
          assert SameEntry(rec, first, k) && SameEntry(first, twice, k) && SameEntry(rec, once, k);
        }
      }
      SameEntriesEqual(twice, once);
    }
  }

  /** Writes to two different fields commute. */
  lemma WritesCommute(rec: Record, schema: Schema, f: string, vf: JsValue, g: string, vg: JsValue)
    requires f != g
    ensures Write(Write(rec, schema, f, vf).record, schema, g, vg).record
         == Write(Write(rec, schema, g, vg).record, schema, f, vf).record
  {
    var fg := Write(Write(rec, schema, f, vf).record, schema, g, vg).record;
    var gf := Write(Write(rec, schema, g, vg).record, schema, f, vf).record;
    forall k
      ensures SameEntry(fg, gf, k)
    {
      if k != f && k != g {
        assert SameEntry(rec, fg, k) && SameEntry(rec, gf, k);
      }
    }
    SameEntriesEqual(fg, gf);
  }

  /** Records that agree on every field are equal. */
  lemma SameEntriesEqual(a: Record, b: Record)
    requires forall k :: SameEntry(a, b, k)
    ensures a == b
  {
    assert a.data.Keys == b.data.Keys by {
      forall k | k in a.data ensures k in b.data { assert SameEntry(a, b, k); }
      forall k | k in b.data ensures k in a.data { assert SameEntry(a, b, k); }
    }
    assert a.errors.Keys == b.errors.Keys by {
      forall k | k in a.errors ensures k in b.errors { assert SameEntry(a, b, k); }
      forall k | k in b.errors ensures k in a.errors { assert SameEntry(a, b, k); }
    }
    forall k | k in a.data ensures a.data[k] == b.data[k] { assert SameEntry(a, b, k); }
    forall k | k in a.errors ensures a.errors[k] == b.errors[k] { assert SameEntry(a, b, k); }
  }

  /** A later write to the field that failed clears its error once the new
      value passes. */
  lemma RepairClearsError(rec: Record, schema: Schema, field: string, bad: JsValue, good: JsValue)
    ensures field in schema && Validate(schema[field], bad).Invalid? && Validate(schema[field], good).Valid? ==>
      var failed := Write(rec, schema, field, bad).record;
      && field in failed.errors && field !in failed.data
      && var repaired := Write(failed, schema, field, good).record;
         field !in repaired.errors && field in repaired.data && repaired.data[field] == good
  {
  }

  // ---------------------------------------------------------------------
  // Sequences of writes
  // ---------------------------------------------------------------------

  /** One assignment `proxy[field] = value`. */
  datatype Assignment = Assignment(field: string, value: JsValue)

  /** The record after a sequence of assignments, in order. */
  function WriteAll(rec: Record, schema: Schema, writes: seq<Assignment>): Record
    decreases |writes|
  {
    if writes == [] then rec
    else WriteAll(Write(rec, schema, writes[0].field, writes[0].value).record, schema, writes[1..])
  }

  /** However many writes follow, no field is ever in both buckets and no
      field outside the schema appears in either. */
  lemma {:induction false} WriteAllPreservesInvariant(rec: Record, schema: Schema, writes: seq<Assignment>)
    requires Disjoint(rec) && WithinSchema(rec, schema)
    ensures Disjoint(WriteAll(rec, schema, writes))
    ensures WithinSchema(WriteAll(rec, schema, writes), schema)
    decreases |writes|
  {
    if writes != [] {
      var next := Write(rec, schema, writes[0].field, writes[0].value).record;
      WritePreservesInvariant(rec, schema, writes[0].field, writes[0].value);
      WriteAllPreservesInvariant(next, schema, writes[1..]);
    }
  }

  // ---------------------------------------------------------------------
  // The get trap
  // ---------------------------------------------------------------------

  /** What `proxy[prop]` reads: the target's own property `prop`. */
  datatype Read = DataBucket(data: map<string, JsValue>) | ErrorsBucket(errors: map<string, string>) | Absent

  /** The `get` trap: the target has exactly two own properties, the two
      buckets, read as a whole; a field name reads nothing. */
  function Get(rec: Record, prop: string): (r: Read)
    ensures r.DataBucket? <==> prop == "data"
    ensures r.ErrorsBucket? <==> prop == "errors"
    ensures r.DataBucket? ==> r.data == rec.data
    ensures r.ErrorsBucket? ==> r.errors == rec.errors
  {
    if prop == "data" then DataBucket(rec.data)
    else if prop == "errors" then ErrorsBucket(rec.errors)
    else Absent
  }

  // ---------------------------------------------------------------------
  // Construction
  // ---------------------------------------------------------------------

  /** `initialData[key]`: `undefined` when the key is absent. */
  function InitialValue(initial: map<string, JsValue>, key: string): JsValue {
    if key in initial then initial[key] else Undefined
  }

  /** The record once every key in `done` has been written with its initial
      value: each such key sits in the bucket its chain's verdict sends it to. */
  function Settled(schema: Schema, initial: map<string, JsValue>, done: set<string>): Record
    requires done <= schema.Keys
  {
    Record(
      map k | k in done && Validate(schema[k], InitialValue(initial, k)).Valid? :: InitialValue(initial, k),
      map k | k in done && Validate(schema[k], InitialValue(initial, k)).Invalid? ::
        Validate(schema[k], InitialValue(initial, k)).message)
  }

  /** Writing one more schema key's initial value settles that key too. */
  lemma WriteSettlesKey(schema: Schema, initial: map<string, JsValue>, done: set<string>, k: string)
    requires done <= schema.Keys && k in schema && k !in done
    ensures Write(Settled(schema, initial, done), schema, k, InitialValue(initial, k)).record
         == Settled(schema, initial, done + {k})
  {
    var before := Settled(schema, initial, done);
    var after := Write(before, schema, k, InitialValue(initial, k)).record;
    var goal := Settled(schema, initial, done + {k});
    forall x
      ensures SameEntry(after, goal, x)
    {
      if x != k {
        assert SameEntry(before, after, x);
        assert SameEntry(before, goal, x);
      }
    }
    SameEntriesEqual(after, goal);
  }

  /** A settled record holds each settled key in exactly one bucket, and the
      data bucket holds the initial values themselves. */
  lemma SettledShape(schema: Schema, initial: map<string, JsValue>, done: set<string>)
    requires done <= schema.Keys
    ensures var rec := Settled(schema, initial, done);
      && Disjoint(rec) && rec.data.Keys + rec.errors.Keys == done
      && forall k :: k in rec.data ==> rec.data[k] == InitialValue(initial, k)
  {
    var rec := Settled(schema, initial, done);
    forall k | k in done
      ensures k in rec.data.Keys + rec.errors.Keys
    {
      if Validate(schema[k], InitialValue(initial, k)).Valid? {
        assert k in rec.data;
      } else {
        assert k in rec.errors;
      }
    }
  }

  /** `validatedProxy(schema, initialData)`: every schema key, in whatever
      order the enumeration yields them, is written through `Write` with its
      initial value or `undefined`.  The result does not depend on that order:
      every schema key ends in exactly one bucket, as its chain judges its
      initial value, and keys of `initial` outside the schema are ignored. */
  method Create(schema: Schema, initial: map<string, JsValue>) returns (rec: Record)
    ensures rec == Settled(schema, initial, schema.Keys)
    ensures Disjoint(rec) && rec.data.Keys + rec.errors.Keys == schema.Keys
    ensures forall k :: k in rec.data ==> rec.data[k] == InitialValue(initial, k)
  {
    rec := Empty;
    var pending := schema.Keys;
    while pending != {}
      invariant pending <= schema.Keys
      invariant rec == Settled(schema, initial, schema.Keys - pending)
      decreases pending
    {
      var k :| k in pending;
      WriteSettlesKey(schema, initial, schema.Keys - pending, k);
      rec := Write(rec, schema, k, InitialValue(initial, k)).record;
      assert schema.Keys - pending + {k} == schema.Keys - (pending - {k});
      pending := pending - {k};
    }
    assert schema.Keys - pending == schema.Keys;
    SettledShape(schema, initial, schema.Keys);
  }
}
