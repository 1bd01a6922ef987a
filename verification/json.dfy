/** The value `json.loads` produces, as the harness sees it. */
module Json {
  import opened Outcomes

  /** A decoded JSON value. Integers and floats are both numbers. */
  datatype Value =
    | Null
    | Bool(b: bool)
    | Num(n: real)
    | Str(s: string)
    | Arr(items: seq<Value>)
    | Obj(obj: Object)

  /** A decoded JSON object: a Python `dict` with its keys in insertion order. */
  datatype Object = Object(keys: seq<string>, fields: map<string, Value>)
  {
    /** Every key occurs once and the ordered keys are exactly the dict's keys. */
    predicate WellFormed()
    {
      && (forall i, j :: 0 <= i < j < |keys| ==> keys[i] != keys[j])
      && fields.Keys == set k | k in keys
    }
  }

  /** The number a value stands for in a Python comparison with a number:
      `bool` is a subclass of `int`; `None`, strings, lists and dicts are
      not comparable and make `0 <= value` raise `TypeError`. */
  function Numeric(v: Option<Value>): (r: Option<real>)
    ensures r.Some? <==> v.Some? && (v.value.Num? || v.value.Bool?)
    ensures v.Some? && v.value.Num? ==> r == Some(v.value.n)
    ensures v.Some? && v.value.Bool? ==> r == Some(if v.value.b then 1.0 else 0.0)
  {
    match v
    case Some(Num(n)) => Some(n)
    case Some(Bool(b)) => Some(if b then 1.0 else 0.0)
    case _ => None
  }
}
