/** The JavaScript values the alert filter inspects, with the runtime type
    tests of app.js written out as constructors, and the two ways an
    evaluation can complete (normally, or by throwing). */
module JsValues {

  /** A JSON value as the filter sees it.
      - Num: a (finite) number; only comparisons are applied to it.
      - Arr: an array.
      - Null: JSON null. Indexing it throws a TypeError, exactly as indexing
        `undefined` (a missing field) does, so a missing field is a Null too.
      - Other: a string, boolean or object: indexing it with 0 never yields a
        number and it is not an array. */
  datatype JVal = Num(n: real) | Arr(items: seq<JVal>) | Null | Other

  datatype Option<T> = None | Some(value: T)

  /** The completion of a JavaScript evaluation: it returns a value or throws. */
  datatype Completion<T> = Normal(value: T) | Throw

  /** `typeof v[0] === "number"` for a value that does not throw when indexed:
      an array whose first element is a number. Such an array is a
      coordinate leaf and is taken whole. */
  predicate IsLeaf(v: JVal) {
    v.Arr? && |v.items| > 0 && v.items[0].Num?
  }

  /** The number a relational comparison (`x >= 6.0`) converts `v` to, or None
      for NaN (every comparison with NaN is false). null converts to 0; an
      array converts through its string form: `[]` gives "" and so 0, a
      one-element array the string form of its element (for a number, null,
      string or array the same as converting the element itself; for a
      boolean, "true" or "false", which is NaN), and two or more elements a
      comma-separated string, which is NaN. */
  function ToNumber(v: JVal): Option<real> {
    match v
    case Num(x) => Some(x)
    case Null => Some(0.0)
    case Other => None
    case Arr(s) =>
      if |s| == 0 then Some(0.0)
      else if |s| == 1 then ToNumber(s[0])
      else None
  }

  /** `s[i]` read with JavaScript array destructuring, then converted to a
      number: a position past the end is `undefined`, which is NaN. */
  function Component(s: seq<JVal>, i: nat): Option<real> {
    if i < |s| then ToNumber(s[i]) else None
  }
}
