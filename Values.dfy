/** The JavaScript values the compiler observes: spec entries, states, actions and payloads. */
module Values {

  datatype Option<T> = None | Some(value: T) {
    /** The wrapped value, or `default` when there is none. */
    function GetOr(default: T): T {
      if Some? then value else default
    }
  }

  /** The identity of a function value. What a function does when it is called is given
      separately (see `Compiler.Env`), so that values keep their equality. */
  type FnId = nat

  /** A JavaScript value. Objects are their own enumerable properties; functions carry
      no properties of their own. */
  datatype Value =
    | Undefined
    | Null
    | Bool(b: bool)
    | Num(n: int)
    | Str(s: string)
    | Fn(id: FnId)
    | Obj(props: map<string, Value>)

  /** The result of a call: a value, or the `TypeError` JavaScript throws on reading a
      property of `undefined`/`null` or on calling something that is not a function. */
  datatype Outcome = Returns(value: Value) | ThrowsTypeError

  /** `v[key]` on a value that is neither `undefined` nor `null`. */
  function GetProp(v: Value, key: string): Value {
    if v.Obj? && key in v.props then v.props[key] else Undefined
  }

  /** The names of the own enumerable properties `Object.assign` copies from `source`. */
  function OwnKeys(source: Value): set<string> {
    if source.Obj? then source.props.Keys else {}
  }

  /** `Object.assign(target, source)` for a plain-object target: the source's own
      properties are written over the target's. */
  function Assign(target: map<string, Value>, source: Value): (r: map<string, Value>)
    ensures r.Keys == target.Keys + OwnKeys(source)
    ensures forall k :: k in OwnKeys(source) ==> r[k] == source.props[k]
    ensures forall k :: k in target && k !in OwnKeys(source) ==> r[k] == target[k]
  {
    if source.Obj? then target + source.props else target
  }

  function DigitChar(d: nat): char
    requires d < 10
  {
    "0123456789"[d]
  }

  /** Decimal notation of a natural number. */
  function NatToString(n: nat): (r: string)
    ensures |r| > 0
    decreases n
  {
    if n < 10 then [DigitChar(n)] else NatToString(n / 10) + [DigitChar(n % 10)]
  }

  /** `String(n)` for an integral number. */
  function IntToString(n: int): string {
    if n < 0 then "-" + NatToString(-n) else NatToString(n)
  }

  /** The property name a value becomes when it is used as a key (`obj[v]`), for the
      values whose conversion does not run user code; `None` for objects and functions. */
  function PropertyKey(v: Value): (r: Option<string>)
    ensures v.Str? ==> r == Some(v.s)
    ensures r.None? <==> v.Obj? || v.Fn?
  {
    match v
    case Undefined => Some("undefined")
    case Null => Some("null")
    case Bool(b) => Some(if b then "true" else "false")
    case Num(n) => Some(IntToString(n))
    case Str(s) => Some(s)
    case Fn(_) => None
    case Obj(_) => None
  }
}
