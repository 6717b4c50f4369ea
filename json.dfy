/**
 * The untyped values an import file parses to, and the JavaScript operations
 * the import validators apply to them: property access, truthiness,
 * `typeof x === 'object'` and `Array.isArray`.
 */
module Json {
  import opened Optional

  /** A parsed JSON value. Numbers are integers here (see the README). */
  datatype Json =
    | JNull
    | JBool(b: bool)
    | JNumber(n: int)
    | JString(s: string)
    | JArray(items: seq<Json>)
    | JObject(fields: map<string, Json>)

  /** `v[key]` on a value that is not null: `None` stands for `undefined`. */
  function Get(v: Json, key: string): (r: Option<Json>)
    ensures r.Some? <==> v.JObject? && key in v.fields
  {
    if v.JObject? && key in v.fields then Some(v.fields[key]) else None
  }

  /** JavaScript truthiness; `undefined` (`None`) is falsy. */
  predicate Truthy(v: Option<Json>) {
    match v
    case None => false
    case Some(JNull) => false
    case Some(JBool(b)) => b
    case Some(JNumber(n)) => n != 0
    case Some(JString(s)) => s != ""
    case Some(JArray(_)) => true
    case Some(JObject(_)) => true
  }

  /** `typeof v === 'object'` (which holds for `null` and for arrays). */
  predicate IsObjectType(v: Json) {
    v.JNull? || v.JArray? || v.JObject?
  }

  /** `Array.isArray(v)`. */
  predicate IsArray(v: Option<Json>) {
    v.Some? && v.value.JArray?
  }

  /** The `{ valid, error }` object the validators return. */
  datatype Validation = Valid | Invalid(error: string)

  /** A validator either returns, or throws a TypeError by reading a property of `null`. */
  datatype Outcome = Returned(validation: Validation) | ThrowsTypeError

  /**
   * `for (const x of items) if (!ok(x)) return { valid: false, error }`, where
   * `ok` reads properties of `x`: a `null` element reached by the loop throws.
   */
  function CheckEach(items: seq<Json>, ok: Json -> bool, error: string): (r: Outcome)
    ensures r == Returned(Valid) || r == Returned(Invalid(error)) || r == ThrowsTypeError
  {
    if |items| == 0 then Returned(Valid)
    else if items[0].JNull? then ThrowsTypeError
    else if !ok(items[0]) then Returned(Invalid(error))
    else CheckEach(items[1..], ok, error)
  }

  /** The loop finishes normally exactly when every element is non-null and passes. */
  lemma {:induction false} CheckEachValidIff(items: seq<Json>, ok: Json -> bool, error: string)
    ensures CheckEach(items, ok, error) == Returned(Valid)
        <==> forall i :: 0 <= i < |items| ==> !items[i].JNull? && ok(items[i])
  {
    if |items| > 0 {
      CheckEachValidIff(items[1..], ok, error);
      assert forall i :: 1 <= i < |items| ==> items[i] == items[1..][i - 1];
    }
  }

  /** The loop throws exactly when the first element that is null or fails is a null. */
  lemma {:induction false} CheckEachThrowsIff(items: seq<Json>, ok: Json -> bool, error: string)
    ensures CheckEach(items, ok, error) == ThrowsTypeError
        <==> exists i :: 0 <= i < |items| && items[i].JNull?
                      && forall j :: 0 <= j < i ==> !items[j].JNull? && ok(items[j])
  {
    if |items| > 0 {
      CheckEachThrowsIff(items[1..], ok, error);
      if CheckEach(items, ok, error) == ThrowsTypeError && !items[0].JNull? {
        var k :| 0 <= k < |items| - 1 && items[1..][k].JNull?
               && forall j :: 0 <= j < k ==> !items[1..][j].JNull? && ok(items[1..][j]);
        assert forall j :: 0 <= j < k + 1 ==> !items[j].JNull? && ok(items[j]) by {
          forall j | 0 <= j < k + 1
            ensures !items[j].JNull? && ok(items[j])
          {
            if j > 0 { assert items[j] == items[1..][j - 1]; }
          }
        }
      }
      if exists i :: 0 <= i < |items| && items[i].JNull? && forall j :: 0 <= j < i ==> !items[j].JNull? && ok(items[j]) {
        var i :| 0 <= i < |items| && items[i].JNull? && forall j :: 0 <= j < i ==> !items[j].JNull? && ok(items[j]);
        if i > 0 {
          assert items[1..][i - 1].JNull?;
          assert forall j :: 0 <= j < i - 1 ==> !items[1..][j].JNull? && ok(items[1..][j]);
        }
      }
    }
  }

  /** A stricter element test can only turn a normal finish into a rejection or a throw. */
  lemma {:induction false} CheckEachMonotone(items: seq<Json>, strict: Json -> bool, lax: Json -> bool, error: string)
    requires forall x :: strict(x) ==> lax(x)
    ensures CheckEach(items, strict, error) == Returned(Valid) ==> CheckEach(items, lax, error) == Returned(Valid)
  {
    if |items| > 0 {
      CheckEachMonotone(items[1..], strict, lax, error);
    }
  }
}
