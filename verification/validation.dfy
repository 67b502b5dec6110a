/** The validation schemas of the frontend forms, as the rule sets Yup
    evaluates. Form values are texts keyed by field name; a field that is not
    in the map is `undefined`. Whether a text looks like an email address or
    a URL is decided by the two predicates in `Formats`. The model computes
    every failing check; which one message a form displays is left to the
    form library. */
module Validation {
  import Text

  type Values = map<string, string>

  datatype CharClass = Lowercase | Uppercase | Digit | NonAlphanumeric

  /** `/[a-z]/`, `/[A-Z]/`, `/[0-9]/` and `/[^a-zA-Z0-9]/` on one character. */
  predicate InClass(c: char, k: CharClass) {
    match k
    case Lowercase => 'a' <= c <= 'z'
    case Uppercase => 'A' <= c <= 'Z'
    case Digit => '0' <= c <= '9'
    case NonAlphanumeric => !('a' <= c <= 'z' || 'A' <= c <= 'Z' || '0' <= c <= '9')
  }

  /** `regex.test(s)` for a one-class pattern: some character is in the class. */
  predicate Contains(s: string, k: CharClass) {
    exists i :: 0 <= i < |s| && InClass(s[i], k)
  }

  datatype Rule =
    | Required
    | MinLength(n: nat)
    | Matches(k: CharClass)
    | EmailFormat
    | UrlFormat
      /** `oneOf([ref(other), null])` */
    | SameAs(other: string)

  datatype Check = Check(field: string, rule: Rule, message: string)

  type Schema = seq<Check>

  datatype Formats = Formats(isEmail: string -> bool, isUrl: string -> bool)

  /** One rule on the values. Before Yup sees them, Formik turns every empty
      text into undefined, so a field is present only with a non-empty text.
      `required` rejects an absent field; every other rule lets it through;
      `min` compares JavaScript's `length`, counted in UTF-16 code units;
      `oneOf` otherwise wants the referenced field's value, which an absent
      reference never equals. */
  predicate Passes(c: Check, values: Values, formats: Formats) {
    var present := c.field in values && values[c.field] != "";
    var v := if present then values[c.field] else "";
    match c.rule
    case Required => present
    case MinLength(n) => !present || Text.Utf16Length(v) >= n
    case Matches(k) => !present || Contains(v, k)
    case EmailFormat => !present || formats.isEmail(v)
    case UrlFormat => !present || formats.isUrl(v)
    case SameAs(other) => !present || (other in values && values[other] == v)
  }

  /** An empty or missing field fails only its `required` checks. */
  lemma EmptyFailsOnlyRequired(c: Check, values: Values, formats: Formats)
    requires c.field !in values || values[c.field] == ""
    ensures !Passes(c, values, formats) <==> c.rule.Required?
  {
  }

  /** `a` is `b` with some elements left out, the rest kept in order. */
  predicate Subsequence<T(==)>(a: seq<T>, b: seq<T>) {
    a == [] || (b != [] && if a[0] == b[0] then Subsequence(a[1..], b[1..]) else Subsequence(a, b[1..]))
  }

  /** The failing checks, in schema order. */
  function Failing(schema: Schema, values: Values, formats: Formats): (r: Schema)
    ensures |r| <= |schema|
    ensures forall c :: c in r <==> c in schema && !Passes(c, values, formats)
    ensures Subsequence(r, schema)
  {
    if schema == [] then []
    else
      var rest := Failing(schema[1..], values, formats);
      assert forall c :: c in schema <==> c == schema[0] || c in schema[1..];
      if Passes(schema[0], values, formats) then
        assert rest != [] ==> rest[0] in rest && rest[0] != schema[0];
        rest
      else
        assert ([schema[0]] + rest)[1..] == rest;
        [schema[0]] + rest
  }

  /** Formik's `isValid`: no check fails. */
  predicate IsValid(schema: Schema, values: Values, formats: Formats) {
    Failing(schema, values, formats) == []
  }

  lemma ValidIffAllPass(schema: Schema, values: Values, formats: Formats)
    ensures IsValid(schema, values, formats) <==> forall c :: c in schema ==> Passes(c, values, formats)
  {
    if !IsValid(schema, values, formats) {
      var r := Failing(schema, values, formats);
      assert r[0] in r;
    }
  }

  /** Every check passes, checked front to back. */
  predicate AllPass(schema: Schema, values: Values, formats: Formats) {
    schema == [] || (Passes(schema[0], values, formats) && AllPass(schema[1..], values, formats))
  }

  lemma {:induction false} ValidIffAllPassInOrder(schema: Schema, values: Values, formats: Formats)
    ensures IsValid(schema, values, formats) <==> AllPass(schema, values, formats)
  {
    if schema != [] {
      ValidIffAllPassInOrder(schema[1..], values, formats);
    }
  }

  /** The failing messages of one field. */
  function FieldErrors(schema: Schema, values: Values, formats: Formats, field: string): (r: seq<string>)
    ensures forall m :: m in r <==> exists c :: c in schema && c.field == field && !Passes(c, values, formats) && c.message == m
  {
    var failing := Failing(schema, values, formats);
    FieldMessages(failing, field)
  }

  /** A message that only one check of its field carries is shown exactly
      when that check fails. */
  lemma SoleMessageShownIffFails(schema: Schema, i: int, values: Values, formats: Formats)
    requires 0 <= i < |schema|
    requires forall j :: 0 <= j < |schema| && j != i ==>
               schema[j].field != schema[i].field || schema[j].message != schema[i].message
    ensures schema[i].message in FieldErrors(schema, values, formats, schema[i].field)
        <==> !Passes(schema[i], values, formats)
  {
    var c := schema[i];
    if c.message in FieldErrors(schema, values, formats, c.field) {
      var d :| d in schema && d.field == c.field && !Passes(d, values, formats) && d.message == c.message;
      var j :| 0 <= j < |schema| && schema[j] == d;
    }
  }

  function FieldMessages(checks: Schema, field: string): (r: seq<string>)
    ensures forall m :: m in r <==> exists c :: c in checks && c.field == field && c.message == m
  {
    if checks == [] then []
    else
      var rest := FieldMessages(checks[1..], field);
      assert forall c :: c in checks <==> c == checks[0] || c in checks[1..];
      if checks[0].field == field then [checks[0].message] + rest else rest
  }
}
