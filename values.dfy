/** Values shared by the route handlers: an optional value and the part of
    JavaScript's dynamic values that the handlers inspect. */
module Values {

  datatype Option<+T> = None | Some(value: T)

  /** A JavaScript value as it can arrive in a request body or in route
      parameters. Numbers are kept as reals, with NaN apart; objects and
      arrays are not looked into. */
  datatype JsValue =
    | Undefined
    | Null
    | Bool(b: bool)
    | Number(x: real)
    | NaN
    | Str(s: string)
    | Object

  /** JavaScript truthiness: `!v` is true exactly when `v` is not truthy. */
  predicate Truthy(v: JsValue)
  {
    match v
    case Undefined => false
    case Null => false
    case Bool(b) => b
    case Number(x) => x != 0.0
    case NaN => false
    case Str(s) => s != ""
    case Object => true
  }

  /** JavaScript's `length` of a string: the number of UTF-16 code units,
      two for each character outside the Basic Multilingual Plane. */
  function JsLength(s: string): (n: nat)
    ensures |s| <= n <= 2 * |s|
    ensures n == |s| <==> forall i | 0 <= i < |s| :: s[i] as int < 0x10000
  {
    if s == [] then 0
    else
      var n := (if s[0] as int < 0x10000 then 1 else 2) + JsLength(s[1..]);
      assert forall i | 1 <= i < |s| :: s[i] == s[1..][i - 1];
      n
  }

  /** Appending one character adds its code units. */
  lemma {:induction false} JsLengthSnoc(s: string, c: char)
    ensures JsLength(s + [c]) == JsLength(s) + (if c as int < 0x10000 then 1 else 2)
  {
    if s != [] {
      assert (s + [c])[1..] == s[1..] + [c];
      JsLengthSnoc(s[1..], c);
    }
  }
}
