/**
 * Dynamically typed JavaScript values, as far as the toolbox's helpers inspect them:
 * the runtime tag that `typeof` and `Array.isArray` see, truthiness, and the contents
 * of arrays and objects. Numbers are exact reals; `NaN` is the one non-finite number
 * kept, because several helpers treat it specially.
 */
module JsValues {

  datatype JsValue =
    | Undefined
    | Null
    | Bool(b: bool)
    | Num(n: real)
    | NaN
    | Str(s: string)
    | Arr(items: seq<JsValue>)
      /** A non-array object: the name of its prototype's constructor, its own keys in
          `Object.keys` order, and its own properties. */
    | Obj(ctor: string, keys: seq<string>, fields: map<string, JsValue>)

  /** `!!v`: `undefined`, `null`, `false`, `0`, `NaN` and `""` are falsy, everything else is truthy. */
  predicate Truthy(v: JsValue)
  {
    match v
    case Undefined => false
    case Null => false
    case Bool(b) => b
    case Num(n) => n != 0.0
    case NaN => false
    case Str(s) => s != ""
    case Arr(_) => true
    case Obj(_, _, _) => true
  }

  /** The string the `typeof` operator yields. */
  function TypeOf(v: JsValue): string
  {
    match v
    case Undefined => "undefined"
    case Null => "object"
    case Bool(_) => "boolean"
    case Num(_) => "number"
    case NaN => "number"
    case Str(_) => "string"
    case Arr(_) => "object"
    case Obj(_, _, _) => "object"
  }

  /**
   * The guard `!input || typeof input !== 'number'` that the numeric helpers open with
   * lets through exactly the values this predicate accepts: numbers other than 0 and NaN.
   */
  predicate IsTruthyNumber(v: JsValue)
  {
    Truthy(v) && TypeOf(v) == "number"
  }

  lemma TruthyNumberIsNonZero(v: JsValue)
    ensures IsTruthyNumber(v) <==> v.Num? && v.n != 0.0
  {
  }
}
