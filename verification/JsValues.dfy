/** JavaScript values, as far as the sanitiser and the cache look into them. */
module JsValues {
  import opened Prelude

  /** What a Decimal or a Date prints: digits, signs, `NaN`, `Infinity`, `T` and `Z`, but no capital D. */
  type Printed = s: string | 'D' !in s witness ""

  /** A finite JavaScript value. `Other` is anything that is neither an object nor one of the primitives listed, and an
    * object that is not plain is an instance of some class other than Decimal and Date. */
  datatype Js =
    | Null | Undefined | Str(text: string) | Num(number: real) | Bool(truth: bool)
    | Decimal(digits: Printed) | Date(iso: Printed) | Other(name: string)
    | Arr(items: seq<Js>) | Obj(plain: bool, fields: seq<Field>)

  datatype Field = Field(key: string, value: Js)

  /** The value of an object's own field. */
  function Lookup(fields: seq<Field>, key: string): Option<Js> {
    if fields == [] then None else if fields[0].key == key then Some(fields[0].value) else Lookup(fields[1..], key)
  }
}
