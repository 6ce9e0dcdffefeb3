/**
 * The values that flow through the generator: YAML scalars and collections as
 * the Java code sees them (`null`, `String`, `Integer`, other numbers,
 * `Boolean`, collections and maps), and the dekorate `ConfigReference` record
 * that says which manifest paths to turn into a Helm value.
 */
module Values {
  import opened Wrappers
  import JavaStrings

  /** A YAML value. `VNull` is Java's `null`; `VNum` is a non-Integer number, kept as its text. */
  datatype Value =
    | VNull
    | VStr(s: string)
    | VInt(i: int)
    | VNum(text: string)
    | VBool(b: bool)
    | VList(items: seq<Value>)
    | VMap(entries: map<string, Value>)

  /**
   * A reference from a Helm value to manifest paths. A null `String` field is
   * modelled as the empty string and a null `paths` array as the empty
   * sequence, since every reader treats them alike.
   */
  datatype ConfigReference = ConfigReference(
    property: string,
    paths: seq<string>,
    value: Value,
    expression: string,
    profile: string,
    description: string,
    required: bool,
    pattern: string,
    enumValues: seq<string>,
    maximum: Option<int>,
    minimum: Option<int>)

  /** A reference with only a property, paths and a value, as most call sites build it. */
  function SimpleReference(property: string, paths: seq<string>, value: Value): ConfigReference
  {
    ConfigReference(property, paths, value, "", "", "", false, "", [], None, None)
  }

  /**
   * `String.valueOf(v)` for the values whose Java text does not depend on a
   * hash order; the text of a map is not modelled.
   */
  function Render(v: Value): Option<string>
  {
    match v
    case VNull => Some("null")
    case VStr(s) => Some(s)
    case VInt(i) => Some(JavaStrings.IntToString(i))
    case VNum(t) => Some(t)
    case VBool(b) => Some(if b then "true" else "false")
    case VList(items) => RenderItems(items, 0, "[")
    case VMap(_) => None
  }

  /** `AbstractCollection.toString`: `[a, b, c]`. */
  function RenderItems(items: seq<Value>, i: nat, acc: string): Option<string>
    requires i <= |items|
    decreases items, |items| - i
  {
    if i == |items| then Some(acc + "]")
    else
      match Render(items[i])
      case None => None
      case Some(t) => RenderItems(items, i + 1, acc + (if i == 0 then "" else ", ") + t)
  }

  /**
   * `String.valueOf(v)` or `toString()`. The text of a map, and so of a list
   * that holds one, depends on its hash order and is taken as the input
   * `mapText`.
   */
  function Formatted(v: Value, mapText: string): string
  {
    OrElse(Render(v), mapText)
  }
}
