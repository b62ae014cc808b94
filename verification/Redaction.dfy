/** JSON documents and the removal of secrets from a stored version configuration. */
module Redaction {
  import opened Strings

  datatype Json =
    | Scalar(text: string)
    | List(items: seq<Json>)
    | Object(fields: seq<Field>)

  datatype Field = Field(key: string, value: Json)

  const SENSITIVE_PARTS: seq<string> :=
    ["api_key", "apikey", "authorization", "credential", "password", "secret", "token"]

  const REDACTED := Scalar("[REDACTED]")

  predicate Sensitive(key: string) {
    exists part | part in SENSITIVE_PARTS :: Contains(Lower(key), part)
  }

  function Redact(value: Json): Json {
    match value
    case Scalar(_) => value
    case List(items) => List(RedactItems(items))
    case Object(fields) => Object(RedactFields(fields))
  }

  function RedactItems(items: seq<Json>): seq<Json> {
    if items == [] then [] else [Redact(items[0])] + RedactItems(items[1..])
  }

  function RedactFields(fields: seq<Field>): seq<Field> {
    if fields == [] then []
    else
      var field := fields[0];
      var kept := if Sensitive(field.key) then REDACTED else Redact(field.value);
      [Field(field.key, kept)] + RedactFields(fields[1..])
  }

  /** The two documents differ at most in values stored under sensitive keys. */
  predicate SameButSecrets(a: Json, b: Json) {
    match (a, b)
    case (Scalar(x), Scalar(y)) => x == y
    case (List(xs), List(ys)) => SameItemsButSecrets(xs, ys)
    case (Object(xs), Object(ys)) => SameFieldsButSecrets(xs, ys)
    case _ => false
  }

  predicate SameItemsButSecrets(xs: seq<Json>, ys: seq<Json>) {
    if xs == [] || ys == [] then xs == ys
    else SameButSecrets(xs[0], ys[0]) && SameItemsButSecrets(xs[1..], ys[1..])
  }

  predicate SameFieldsButSecrets(xs: seq<Field>, ys: seq<Field>) {
    if xs == [] || ys == [] then xs == ys
    else
      && xs[0].key == ys[0].key
      && (Sensitive(xs[0].key) || SameButSecrets(xs[0].value, ys[0].value))
      && SameFieldsButSecrets(xs[1..], ys[1..])
  }

  /** Redaction forgets the secrets and nothing else: two documents redact alike iff they are
      equal everywhere outside values stored under sensitive keys. */
  lemma {:induction false} RedactForgetsExactlyTheSecrets(a: Json, b: Json)
    ensures Redact(a) == Redact(b) <==> SameButSecrets(a, b)
    decreases a, 1
  {
    match (a, b)
    case (List(xs), List(ys)) => RedactItemsForget(xs, ys);
    case (Object(xs), Object(ys)) => RedactFieldsForget(xs, ys);
    case _ =>
  }

  lemma {:induction false} RedactItemsForget(xs: seq<Json>, ys: seq<Json>)
    ensures RedactItems(xs) == RedactItems(ys) <==> SameItemsButSecrets(xs, ys)
    decreases xs, 0
  {
    if xs != [] && ys != [] {
      RedactForgetsExactlyTheSecrets(xs[0], ys[0]);
      RedactItemsForget(xs[1..], ys[1..]);
      var p, q := RedactItems(xs), RedactItems(ys);
      assert p[0] == Redact(xs[0]) && p[1..] == RedactItems(xs[1..]);
      assert q[0] == Redact(ys[0]) && q[1..] == RedactItems(ys[1..]);
      assert p == [p[0]] + p[1..] && q == [q[0]] + q[1..];
      if SameItemsButSecrets(xs, ys) { assert p == q; }
    }
  }

  lemma {:induction false} RedactFieldsForget(xs: seq<Field>, ys: seq<Field>)
    ensures RedactFields(xs) == RedactFields(ys) <==> SameFieldsButSecrets(xs, ys)
    decreases xs, 0
  {
    if xs != [] && ys != [] {
      RedactForgetsExactlyTheSecrets(xs[0].value, ys[0].value);
      RedactFieldsForget(xs[1..], ys[1..]);
      var p, q := RedactFields(xs), RedactFields(ys);
      assert p[0].key == xs[0].key && p[1..] == RedactFields(xs[1..]);
      assert q[0].key == ys[0].key && q[1..] == RedactFields(ys[1..]);
      assert p == [p[0]] + p[1..] && q == [q[0]] + q[1..];
    }
  }

  /** Every value under a sensitive key is the placeholder. */
  predicate Clean(value: Json) {
    match value
    case Scalar(_) => true
    case List(items) => CleanItems(items)
    case Object(fields) => CleanFields(fields)
  }

  predicate CleanItems(items: seq<Json>) {
    items == [] || (Clean(items[0]) && CleanItems(items[1..]))
  }

  predicate CleanFields(fields: seq<Field>) {
    fields == [] ||
    (var field := fields[0];
     (if Sensitive(field.key) then field.value == Scalar("[REDACTED]") else Clean(field.value))
     && CleanFields(fields[1..]))
  }

  /** Redaction leaves no secret, changes nothing but secrets, and a document without any stays as it is. */
  lemma {:induction false} RedactExactly(value: Json)
    ensures Clean(Redact(value)) && SameButSecrets(value, Redact(value))
    ensures Clean(value) ==> Redact(value) == value
    decreases value, 1
  {
    match value
    case Scalar(_) =>
    case List(items) => RedactItemsExactly(items);
    case Object(fields) => RedactFieldsExactly(fields);
  }

  lemma {:induction false} RedactItemsExactly(items: seq<Json>)
    ensures CleanItems(RedactItems(items)) && SameItemsButSecrets(items, RedactItems(items))
    ensures CleanItems(items) ==> RedactItems(items) == items
    decreases items, 0
  {
    if items == [] {
    } else {
      RedactExactly(items[0]);
      RedactItemsExactly(items[1..]);
      assert RedactItems(items)[1..] == RedactItems(items[1..]);
      assert items == [items[0]] + items[1..];
    }
  }

  lemma {:induction false} RedactFieldsExactly(fields: seq<Field>)
    ensures CleanFields(RedactFields(fields)) && SameFieldsButSecrets(fields, RedactFields(fields))
    ensures CleanFields(fields) ==> RedactFields(fields) == fields
    decreases fields, 0
  {
    if fields == [] {
    } else {
      RedactExactly(fields[0].value);
      RedactFieldsExactly(fields[1..]);
      assert RedactFields(fields)[1..] == RedactFields(fields[1..]);
      assert fields == [fields[0]] + fields[1..];
    }
  }

  /** A key is sensitive exactly when one of the words stands in it, letter case aside. */
  lemma SensitiveExactly(key: string)
    ensures Sensitive(key) <==>
      exists part | part in ["api_key", "apikey", "authorization", "credential", "password", "secret", "token"] ::
        Occurs(Lower(key), part)
  {
    hide Contains, Occurs, Lower;
    forall part ensures Contains(Lower(key), part) <==> Occurs(Lower(key), part) { ContainsExactly(Lower(key), part); }
  }
}
