/** Redaction of audit values: secrets under known keys, and everything below a depth limit. */
module AuditSanitize {
  import opened JsValues
  import opened Prelude
  import opened Text

  const REDACTED: Js := Str("[REDACTED]")

  // ---- sensitive keys ----

  function Normalized(key: string): string {
    if key == "" then ""
    else (if key[0] == '_' || key[0] == '-' then "" else [LowerChar(key[0])]) + Normalized(key[1..])
  }

  const SENSITIVE_KEYS: set<string> :=
    {"password", "passwordhash", "password_hash", "currentpassword", "newpassword", "confirmpassword", "hash", "token",
    "refreshtoken", "accesstoken", "secret", "apisecret", "webhooksecret", "providersecret", "providercredentials",
    "authorization", "cookie", "credentials", "clientsecret", "privatekey", "seed", "salt", "tokenhash", "token_hash",
    "refreshtokenhash", "emailverificationtoken", "passwordresettoken"}

  predicate Sensitive(key: string) {
    key != "" && Normalized(key) in SENSITIVE_KEYS
  }

  lemma {:induction false} NormalizedConcat(a: string, b: string)
    ensures Normalized(a + b) == Normalized(a) + Normalized(b)
  {
    if a == "" {
      assert a + b == b;
    } else {
      var rest, whole := a[1..], a + b;
      var one := if a[0] == '_' || a[0] == '-' then "" else [LowerChar(a[0])];
      NormalizedConcat(rest, b);
      assert whole[0] == a[0] && whole[1..] == rest + b;
      assert Normalized(whole) == one + Normalized(rest + b);
      assert Normalized(a) == one + Normalized(rest);
    }
  }

  lemma NormalizedAround(a: string, c: char, b: string)
    ensures Normalized(a + [c] + b)
            == Normalized(a) + (if c == '_' || c == '-' then "" else [LowerChar(c)]) + Normalized(b)
  {
    NormalizedConcat(a + [c], b);
    NormalizedConcat(a, [c]);
    assert [c][1..] == "";
  }

  lemma {:induction false} NormalizedKeeps(key: string)
    requires forall i | 0 <= i < |key| :: key[i] !in {'_', '-', '\U{212A}'} && !('A' <= key[i] <= 'Z')
    ensures Normalized(key) == key
  {
    if key != "" {
      NormalizedKeeps(key[1..]);
    }
  }

  /** Underscores and hyphens anywhere, and the case of any letter, make no difference to whether a key is secret. */
  lemma SpellingDoesNotMatter(a: string, c: char, b: string)
    ensures c == '_' || c == '-' ==> (Sensitive(a + [c] + b) <==> Sensitive(a + b))
    ensures 'A' <= c <= 'Z' ==> (Sensitive(a + [c] + b) <==> Sensitive(a + [(c as int + 32) as char] + b))
  {
    NormalizedAround(a, c, b);
    NormalizedConcat(a, b);
    assert Normalized(a) + "" + Normalized(b) == Normalized(a) + Normalized(b);
    if 'A' <= c <= 'Z' {
      NormalizedAround(a, (c as int + 32) as char, b);
    }
    assert Normalized("") == "";
    assert "" !in SENSITIVE_KEYS;
  }

  /** Spelled without them and in small letters, these words are the secret keys, and no others are. Two entries of the
    * list hold an underscore and so match nothing; the same words without it stand beside them. */
  lemma SecretWords(key: string)
    requires forall i | 0 <= i < |key| :: key[i] !in {'_', '-', '\U{212A}'} && !('A' <= key[i] <= 'Z')
    ensures Sensitive(key) <==>
              key in {"password", "passwordhash", "currentpassword", "newpassword", "confirmpassword", "hash", "token",
                      "refreshtoken", "accesstoken", "secret", "apisecret", "webhooksecret", "providersecret",
                      "providercredentials", "authorization", "cookie", "credentials", "clientsecret", "privatekey",
                      "seed", "salt", "tokenhash", "refreshtokenhash", "emailverificationtoken",
                      "passwordresettoken"}
  {
    NormalizedKeeps(key);
    assert "password_hash"[8] == '_' && "token_hash"[5] == '_';
  }

  // ---- what is taken for a Decimal ----

  const DECIMAL: Js := Str("Decimal")

  /** What `toString` makes of an object. */
  const OBJECT_TEXT: Js := Str("[object Object]")

  /** The test looks at `value.constructor.name`, and an object can carry both names itself: its own `constructor` is
    * an object whose own `name` is "Decimal", and no own field hides `toString`. */
  predicate LikeDecimal(v: Js) {
    v.Obj? && Lookup(v.fields, "toString").None?
    && var c := Lookup(v.fields, "constructor");
       c.Some? && c.value.Obj? && Lookup(c.value.fields, "name") == Some(DECIMAL)
  }

  // ---- the sanitiser ----

  /** Assigning to `__proto__` creates no property, so such a field is lost. */
  function Sanitize(v: Js, depth: int, maxDepth: int): Js
    decreases v, 1
  {
    if depth > maxDepth then REDACTED
    else if LikeDecimal(v) then OBJECT_TEXT
    else
      match v
      case Decimal(digits) => Str(digits)
      case Date(iso) => Str(iso)
      case Arr(items) => Arr(SanitizeItems(items, depth + 1, maxDepth))
      case Obj(_, fields) => Obj(true, SanitizeFields(fields, depth + 1, maxDepth))
      case _ => v
  }

  function SanitizeItems(items: seq<Js>, depth: int, maxDepth: int): (r: seq<Js>)
    ensures |r| == |items|
    decreases items, 0
  {
    if items == [] then [] else [Sanitize(items[0], depth, maxDepth)] + SanitizeItems(items[1..], depth, maxDepth)
  }

  function SanitizeFields(fields: seq<Field>, depth: int, maxDepth: int): seq<Field>
    decreases fields, 0
  {
    if fields == [] then []
    else
      var rest := SanitizeFields(fields[1..], depth, maxDepth);
      var Field(key, value) := fields[0];
      if key == "__proto__" then rest
      else [Field(key, if Sensitive(key) then REDACTED else Sanitize(value, depth, maxDepth))] + rest
  }

  lemma ItemsStep(items: seq<Js>, i: nat, depth: int, maxDepth: int)
    requires i < |items|
    ensures SanitizeItems(items[i..], depth, maxDepth)
            == [Sanitize(items[i], depth, maxDepth)] + SanitizeItems(items[i + 1..], depth, maxDepth)
  {
    assert items[i..][1..] == items[i + 1..];
  }

  lemma FieldsStep(fields: seq<Field>, i: nat, depth: int, maxDepth: int)
    requires i < |fields|
    ensures var Field(key, value) := fields[i];
            SanitizeFields(fields[i..], depth, maxDepth)
            == (if key == "__proto__" then []
                else [Field(key, if Sensitive(key) then REDACTED else Sanitize(value, depth, maxDepth))])
               + SanitizeFields(fields[i + 1..], depth, maxDepth)
  {
    assert fields[i..][1..] == fields[i + 1..];
  }

  /** `sanitizeValue` as it is written. */
  method SanitizeValue(v: Js, depth: int, maxDepth: int) returns (r: Js)
    ensures r == Sanitize(v, depth, maxDepth)
    ensures depth > maxDepth ==> r == Str("[REDACTED]")
    ensures depth <= maxDepth ==>
              match v
              case Decimal(digits) => r == Str(digits)
              case Date(iso) => r == Str(iso)
              case Arr(items) => r.Arr? && |r.items| == |items|
              case Obj(_, _) => r == Str("[object Object]") || (r.Obj? && r.plain)
              case _ => r == v
    decreases v, 1
  {
    if depth > maxDepth {
      return REDACTED;
    }
    if LikeDecimal(v) {
      return OBJECT_TEXT;
    }
    match v {
      case Decimal(digits) => r := Str(digits);
      case Date(iso) => r := Str(iso);
      case Arr(items) =>
        var out := SanitizeArray(items, depth, maxDepth);
        r := Arr(out);
      case Obj(_, fields) =>
        var out := SanitizeObject(fields, depth, maxDepth);
        r := Obj(true, out);
      case _ => r := v;
    }
  }

  /** `value.map(…)`. */
  method SanitizeArray(items: seq<Js>, depth: int, maxDepth: int) returns (out: seq<Js>)
    ensures out == SanitizeItems(items, depth + 1, maxDepth)
    decreases items, 0
  {
    out := [];
    for i := 0 to |items|
      invariant SanitizeItems(items, depth + 1, maxDepth) == out + SanitizeItems(items[i..], depth + 1, maxDepth)
    {
      var item := SanitizeValue(items[i], depth + 1, maxDepth);
      ItemsStep(items, i, depth + 1, maxDepth);
      out := out + [item];
    }
  }

  /** The loop over `Object.entries`: copied field by field into an empty object. */
  method SanitizeObject(fields: seq<Field>, depth: int, maxDepth: int) returns (out: seq<Field>)
    ensures out == SanitizeFields(fields, depth + 1, maxDepth)
    decreases fields, 0
  {
    out := [];
    for i := 0 to |fields|
      invariant SanitizeFields(fields, depth + 1, maxDepth) == out + SanitizeFields(fields[i..], depth + 1, maxDepth)
    {
      var field := fields[i];
      FieldsStep(fields, i, depth + 1, maxDepth);
      var value := REDACTED;
      if !Sensitive(field.key) {
        value := SanitizeValue(field.value, depth + 1, maxDepth);
      }
      if field.key != "__proto__" {
        out := out + [Field(field.key, value)];
      }
    }
  }

  // ---- fixpoints ----

  /** Nothing is left to do on v at this depth. */
  predicate Clean(v: Js, depth: int, maxDepth: int)
    decreases v, 1
  {
    if depth > maxDepth then v == REDACTED
    else
      match v
      case Decimal(_) => false
      case Date(_) => false
      case Arr(items) => forall i | 0 <= i < |items| :: Clean(items[i], depth + 1, maxDepth)
      case Obj(plain, fields) =>
        plain && !LikeDecimal(v) && forall i | 0 <= i < |fields| :: CleanField(fields[i], depth + 1, maxDepth)
      case _ => true
  }

  predicate CleanField(f: Field, depth: int, maxDepth: int)
    decreases f, 0
  {
    f.key != "__proto__" && if Sensitive(f.key) then f.value == REDACTED else Clean(f.value, depth, maxDepth)
  }

  lemma {:induction false} LookupField(fields: seq<Field>, key: string, depth: int, maxDepth: int)
    requires key != "__proto__"
    ensures var r := Lookup(SanitizeFields(fields, depth, maxDepth), key);
            match Lookup(fields, key)
            case None => r.None?
            case Some(x) => r == Some(if Sensitive(key) then REDACTED else Sanitize(x, depth, maxDepth))
    decreases |fields|
  {
    if fields != [] {
      LookupField(fields[1..], key, depth, maxDepth);
    }
  }

  /** Nothing becomes "Decimal" by being sanitised. */
  lemma OnlyDecimalPrintsDecimal(v: Js, depth: int, maxDepth: int)
    requires Sanitize(v, depth, maxDepth) == DECIMAL
    ensures v == DECIMAL
  {
    assert 'D' in "Decimal";
    assert "Decimal"[0] != "[object Object]"[0] && "Decimal"[0] != "[REDACTED]"[0];
  }

  /** So a copy is taken for a Decimal only if the object was, and then it is not copied. */
  lemma CopiesAreNotLikeDecimal(v: Js, depth: int, maxDepth: int)
    ensures !LikeDecimal(Sanitize(v, depth, maxDepth))
  {
    var r := Sanitize(v, depth, maxDepth);
    if r.Obj? && LikeDecimal(r) {
      LookupField(v.fields, "constructor", depth + 1, maxDepth);
      LookupField(v.fields, "toString", depth + 1, maxDepth);
      var c := Lookup(v.fields, "constructor").value;
      LookupField(c.fields, "name", depth + 2, maxDepth);
      assert "Decimal"[0] != "[REDACTED]"[0];
      OnlyDecimalPrintsDecimal(Lookup(c.fields, "name").value, depth + 2, maxDepth);
      assert false;
    }
  }

  lemma {:induction false} SanitizedIsClean(v: Js, depth: int, maxDepth: int)
    ensures Clean(Sanitize(v, depth, maxDepth), depth, maxDepth)
    decreases v, 1
  {
    if depth <= maxDepth {
      if v.Arr? {
        CleanItems(v.items, depth + 1, maxDepth);
      } else if v.Obj? {
        CleanFields(v.fields, depth + 1, maxDepth);
        CopiesAreNotLikeDecimal(v, depth, maxDepth);
      }
    }
  }

  lemma {:induction false} CleanItems(items: seq<Js>, depth: int, maxDepth: int)
    ensures forall i | 0 <= i < |items| :: Clean(SanitizeItems(items, depth, maxDepth)[i], depth, maxDepth)
    decreases items, 0
  {
    if items != [] {
      SanitizedIsClean(items[0], depth, maxDepth);
      CleanItems(items[1..], depth, maxDepth);
    }
  }

  lemma {:induction false} CleanFields(fields: seq<Field>, depth: int, maxDepth: int)
    ensures forall f <- SanitizeFields(fields, depth, maxDepth) :: CleanField(f, depth, maxDepth)
    decreases fields, 0
  {
    if fields != [] {
      SanitizedIsClean(fields[0].value, depth, maxDepth);
      CleanFields(fields[1..], depth, maxDepth);
      var rest := SanitizeFields(fields[1..], depth, maxDepth);
      var r := SanitizeFields(fields, depth, maxDepth);
      if fields[0].key != "__proto__" {
        assert r == [r[0]] + rest && CleanField(r[0], depth, maxDepth);
      }
    }
  }

  lemma {:induction false} CleanStays(v: Js, depth: int, maxDepth: int)
    requires Clean(v, depth, maxDepth)
    ensures Sanitize(v, depth, maxDepth) == v
    decreases v, 1
  {
    if depth <= maxDepth {
      if v.Arr? {
        CleanItemsStay(v.items, depth + 1, maxDepth);
      } else if v.Obj? {
        CleanFieldsStay(v.fields, depth + 1, maxDepth);
      }
    }
  }

  lemma {:induction false} CleanItemsStay(items: seq<Js>, depth: int, maxDepth: int)
    requires forall i | 0 <= i < |items| :: Clean(items[i], depth, maxDepth)
    ensures SanitizeItems(items, depth, maxDepth) == items
    decreases items, 0
  {
    if items != [] {
      CleanStays(items[0], depth, maxDepth);
      CleanItemsStay(items[1..], depth, maxDepth);
    }
  }

  lemma {:induction false} CleanFieldsStay(fields: seq<Field>, depth: int, maxDepth: int)
    requires forall i | 0 <= i < |fields| :: CleanField(fields[i], depth, maxDepth)
    ensures SanitizeFields(fields, depth, maxDepth) == fields
    decreases fields, 0
  {
    if fields != [] {
      if !Sensitive(fields[0].key) {
        CleanStays(fields[0].value, depth, maxDepth);
      }
      CleanFieldsStay(fields[1..], depth, maxDepth);
    }
  }

  /** The values left unchanged are exactly the clean ones. */
  lemma UnchangedIffClean(v: Js, depth: int, maxDepth: int)
    ensures Sanitize(v, depth, maxDepth) == v <==> Clean(v, depth, maxDepth)
  {
    SanitizedIsClean(v, depth, maxDepth);
    if Clean(v, depth, maxDepth) {
      CleanStays(v, depth, maxDepth);
    }
  }

  /** Sanitising twice is sanitising once. */
  lemma SanitizeIsIdempotent(v: Js, depth: int, maxDepth: int)
    ensures Sanitize(Sanitize(v, depth, maxDepth), depth, maxDepth) == Sanitize(v, depth, maxDepth)
  {
    SanitizedIsClean(v, depth, maxDepth);
    CleanStays(Sanitize(v, depth, maxDepth), depth, maxDepth);
  }

  // ---- what every path into the result shows ----

  datatype Step = Index(i: nat) | Key(key: string)

  function Child(v: Js, step: Step): Option<Js> {
    match step
    case Index(i) => if v.Arr? && i < |v.items| then Some(v.items[i]) else None
    case Key(key) => if v.Obj? then Lookup(v.fields, key) else None
  }

  /** The value at the end of a path. */
  function Get(v: Js, path: seq<Step>): Option<Js>
    decreases |path|
  {
    if path == [] then Some(v)
    else
      var c := Child(v, path[0]);
      if c.None? then None else Get(c.value, path[1..])
  }

  predicate Secret(step: Step) {
    step.Key? && Sensitive(step.key)
  }

  lemma {:induction false} ItemAt(items: seq<Js>, i: nat, depth: int, maxDepth: int)
    requires i < |items|
    ensures SanitizeItems(items, depth, maxDepth)[i] == Sanitize(items[i], depth, maxDepth)
    decreases i
  {
    if i > 0 {
      ItemAt(items[1..], i - 1, depth, maxDepth);
    }
  }

  /** One step down: what is taken for a Decimal shows nothing, a secret shows the mark, and anything else shows its own
    * sanitised value. */
  lemma ChildOf(v: Js, step: Step, depth: int, maxDepth: int)
    requires depth <= maxDepth && step != Key("__proto__")
    ensures var r := Child(Sanitize(v, depth, maxDepth), step);
            if LikeDecimal(v) then r.None?
            else
              match Child(v, step)
              case None => r.None?
              case Some(x) => r == Some(if Secret(step) then REDACTED else Sanitize(x, depth + 1, maxDepth))
  {
    match step
    case Index(i) => if v.Arr? && i < |v.items| { ItemAt(v.items, i, depth + 1, maxDepth); }
    case Key(key) => if v.Obj? { LookupField(v.fields, key, depth + 1, maxDepth); }
  }

  /** No object that the path leads through is taken for a Decimal. */
  predicate Clear(v: Js, path: seq<Step>)
    decreases |path|
  {
    path == [] || (!LikeDecimal(v) && (Child(v, path[0]).Some? ==> Clear(Child(v, path[0]).value, path[1..])))
  }

  /** A path that meets no secret key, and goes no deeper than the limit, shows in the result what it shows in the
    * value, sanitised at its depth, if it is clear; in particular every plain leaf there is kept. If it is not clear,
    * it shows nothing. */
  lemma {:induction false} PathsAreKept(v: Js, path: seq<Step>, depth: int, maxDepth: int)
    requires depth + |path| <= maxDepth + 1
    requires forall i | 0 <= i < |path| :: !Secret(path[i]) && path[i] != Key("__proto__")
    ensures var r := Get(Sanitize(v, depth, maxDepth), path);
            if !Clear(v, path) then r.None?
            else
              match Get(v, path)
              case None => r.None?
              case Some(x) => r == Some(Sanitize(x, depth + |path|, maxDepth))
    decreases |path|
  {
    if path != [] {
      ChildOf(v, path[0], depth, maxDepth);
      var c := Child(v, path[0]);
      if c.Some? && !LikeDecimal(v) {
        PathsAreKept(c.value, path[1..], depth + 1, maxDepth);
      }
    }
  }

  lemma {:induction false} CleanLookup(fields: seq<Field>, key: string, depth: int, maxDepth: int)
    requires forall i | 0 <= i < |fields| :: CleanField(fields[i], depth, maxDepth)
    ensures var r := Lookup(fields, key);
            r.Some? ==> if Sensitive(key) then r.value == REDACTED else Clean(r.value, depth, maxDepth)
    decreases |fields|
  {
    if fields != [] {
      CleanLookup(fields[1..], key, depth, maxDepth);
    }
  }

  lemma {:induction false} CleanPaths(v: Js, path: seq<Step>, depth: int, maxDepth: int)
    requires Clean(v, depth, maxDepth) && path != [] && Secret(path[|path| - 1])
    ensures Get(v, path).None? || Get(v, path) == Some(REDACTED)
    decreases |path|
  {
    var c := Child(v, path[0]);
    if c.Some? {
      if path[0].Key? {
        CleanLookup(v.fields, path[0].key, depth + 1, maxDepth);
      }
      if |path| > 1 {
        if Secret(path[0]) {
          assert Child(REDACTED, path[1]).None?;
        } else {
          assert path[1..][|path| - 2] == path[|path| - 1];
          CleanPaths(c.value, path[1..], depth + 1, maxDepth);
        }
      } else {
        assert Get(v, path) == c;
      }
    }
  }

  /** Wherever a path in the result ends in a secret key, it ends in the mark, and nothing lies below. */
  lemma {:induction false} SecretsAreRedacted(v: Js, path: seq<Step>, depth: int, maxDepth: int)
    requires path != [] && Secret(path[|path| - 1])
    ensures var r := Get(Sanitize(v, depth, maxDepth), path); r.None? || r == Some(REDACTED)
  {
    SanitizedIsClean(v, depth, maxDepth);
    CleanPaths(Sanitize(v, depth, maxDepth), path, depth, maxDepth);
  }

  // ---- depth ----

  function Max(a: nat, b: nat): nat {
    if a < b then b else a
  }

  /** How many containers enclose the innermost value. */
  function Nesting(v: Js): nat
    decreases v, 1
  {
    match v
    case Arr(items) => 1 + ItemsNesting(items)
    case Obj(_, fields) => 1 + FieldsNesting(fields)
    case _ => 0
  }

  function ItemsNesting(items: seq<Js>): nat
    decreases items, 0
  {
    if items == [] then 0 else Max(Nesting(items[0]), ItemsNesting(items[1..]))
  }

  function FieldsNesting(fields: seq<Field>): nat
    decreases fields, 0
  {
    if fields == [] then 0 else Max(Nesting(fields[0].value), FieldsNesting(fields[1..]))
  }

  /** However deep the value, containers in the result end at the limit. */
  lemma {:induction false} NestingIsBounded(v: Js, depth: int, maxDepth: int)
    requires depth <= maxDepth + 1
    ensures Nesting(Sanitize(v, depth, maxDepth)) <= maxDepth + 1 - depth
    decreases v, 1
  {
    if depth <= maxDepth {
      if v.Arr? {
        ItemsBounded(v.items, depth + 1, maxDepth);
      } else if v.Obj? {
        FieldsBounded(v.fields, depth + 1, maxDepth);
      }
    }
  }

  lemma {:induction false} ItemsBounded(items: seq<Js>, depth: int, maxDepth: int)
    requires depth <= maxDepth + 1
    ensures ItemsNesting(SanitizeItems(items, depth, maxDepth)) <= maxDepth + 1 - depth
    decreases items, 0
  {
    if items != [] {
      NestingIsBounded(items[0], depth, maxDepth);
      ItemsBounded(items[1..], depth, maxDepth);
      assert SanitizeItems(items, depth, maxDepth)[1..] == SanitizeItems(items[1..], depth, maxDepth);
    }
  }

  lemma {:induction false} FieldsBounded(fields: seq<Field>, depth: int, maxDepth: int)
    requires depth <= maxDepth + 1
    ensures FieldsNesting(SanitizeFields(fields, depth, maxDepth)) <= maxDepth + 1 - depth
    decreases fields, 0
  {
    if fields != [] {
      NestingIsBounded(fields[0].value, depth, maxDepth);
      FieldsBounded(fields[1..], depth, maxDepth);
      var rest := SanitizeFields(fields[1..], depth, maxDepth);
      if fields[0].key != "__proto__" {
        assert SanitizeFields(fields, depth, maxDepth)[1..] == rest;
      }
    }
  }

  // ---- what is left alone ----

  /** No secret key, no `__proto__`, no Date, no Decimal and no class instance anywhere. */
  predicate Plain(v: Js)
    decreases v, 1
  {
    match v
    case Decimal(_) => false
    case Date(_) => false
    case Arr(items) => forall i | 0 <= i < |items| :: Plain(items[i])
    case Obj(plain, fields) => plain && forall i | 0 <= i < |fields| :: PlainField(fields[i])
    case _ => true
  }

  predicate PlainField(f: Field)
    decreases f, 0
  {
    f.key != "__proto__" && !Sensitive(f.key) && Plain(f.value)
  }

  lemma {:induction false} ItemNests(items: seq<Js>, i: nat)
    requires i < |items|
    ensures Nesting(items[i]) <= ItemsNesting(items)
    decreases i
  {
    if i > 0 {
      ItemNests(items[1..], i - 1);
    }
  }

  lemma {:induction false} FieldNests(fields: seq<Field>, i: nat)
    requires i < |fields|
    ensures Nesting(fields[i].value) <= FieldsNesting(fields)
    decreases i
  {
    if i > 0 {
      FieldNests(fields[1..], i - 1);
    }
  }

  /** No object anywhere in the value is taken for a Decimal. */
  predicate NoneLikeDecimal(v: Js)
    decreases v, 1
  {
    match v
    case Arr(items) => forall i | 0 <= i < |items| :: NoneLikeDecimal(items[i])
    case Obj(_, fields) => !LikeDecimal(v) && forall i | 0 <= i < |fields| :: NoneLikeDecimalIn(fields[i])
    case _ => true
  }

  predicate NoneLikeDecimalIn(f: Field)
    decreases f, 0
  {
    NoneLikeDecimal(f.value)
  }

  lemma {:induction false} PlainIsCleanIff(v: Js, depth: int, maxDepth: int)
    requires Plain(v) && depth + Nesting(v) <= maxDepth
    ensures Clean(v, depth, maxDepth) <==> NoneLikeDecimal(v)
    decreases v
  {
    if v.Arr? {
      forall i | 0 <= i < |v.items| ensures Clean(v.items[i], depth + 1, maxDepth) <==> NoneLikeDecimal(v.items[i]) {
        ItemNests(v.items, i);
        PlainIsCleanIff(v.items[i], depth + 1, maxDepth);
      }
    } else if v.Obj? {
      forall i | 0 <= i < |v.fields|
        ensures CleanField(v.fields[i], depth + 1, maxDepth) <==> NoneLikeDecimalIn(v.fields[i])
      {
        FieldNests(v.fields, i);
        assert PlainField(v.fields[i]);
        PlainIsCleanIff(v.fields[i].value, depth + 1, maxDepth);
      }
    }
  }

  /** A plain value that is not too deep is stored as it is if and only if no object in it is taken for a Decimal. */
  lemma PlainIsUnchangedIff(v: Js, maxDepth: int)
    requires Plain(v) && Nesting(v) <= maxDepth
    ensures Sanitize(v, 0, maxDepth) == v <==> NoneLikeDecimal(v)
  {
    PlainIsCleanIff(v, 0, maxDepth);
    UnchangedIffClean(v, 0, maxDepth);
  }

  /** An object with such a `constructor` beside its other field. */
  function Disguised(key: string, value: Js): Js {
    Obj(true, [Field("constructor", Obj(true, [Field("name", DECIMAL)])), Field(key, value)])
  }

  /** Whatever the other field holds, the entry reads "[object Object]": two different changes leave the same trace. */
  lemma DisguisedIsLost(key: string, a: Js, b: Js, maxDepth: nat)
    requires key != "toString" && key != "constructor"
    ensures Sanitize(Disguised(key, a), 0, maxDepth) == Sanitize(Disguised(key, b), 0, maxDepth) == OBJECT_TEXT
    ensures Get(Disguised(key, a), [Key(key)]) == Some(a) && Get(OBJECT_TEXT, [Key(key)]).None?
  {
    forall x ensures LikeDecimal(Disguised(key, x)) && Lookup(Disguised(key, x).fields, key) == Some(x) {
      var fs := Disguised(key, x).fields;
      assert fs[1..] == [Field(key, x)] && [Field(key, x)][1..] == [];
      assert Lookup(fs[1..], "toString") == Lookup([], "toString");
      assert "constructor"[0] != "toString"[0];
    }
    assert [Key(key)][1..] == [];
  }

  /** Such an object is one if and only if the inner name is exactly that word, whatever follows; with a `toString` of
    * its own it is copied like any other. */
  lemma DisguiseIff(name: string, rest: seq<Field>, maxDepth: nat)
    requires Lookup(rest, "toString").None?
    ensures var c := Field("constructor", Obj(true, [Field("name", Str(name))]));
            && (Sanitize(Obj(true, [c] + rest), 0, maxDepth) == OBJECT_TEXT <==> name == "Decimal")
            && Sanitize(Obj(true, [c, Field("toString", Null)] + rest), 0, maxDepth).Obj?
  {
    var c := Field("constructor", Obj(true, [Field("name", Str(name))]));
    var plain, own := [c] + rest, [c, Field("toString", Null)] + rest;
    assert plain[1..] == rest && own[1..] == [Field("toString", Null)] + rest;
    assert "constructor"[0] != "toString"[0];
    assert Lookup(own[1..], "toString") == Some(Null);
    assert Lookup(own, "toString") == Some(Null);
    assert !LikeDecimal(Obj(true, own));
  }
}
