/** JSON values as the event payloads and action parameters hold them. */
module Json {

  /** A Python float, without rounding. */
  datatype Float = NaN | NegInf | Finite(r: real) | PosInf

  datatype Json =
    | Null
    | Bool(b: bool)
    | Int(i: int)
    | Num(x: Float)
    | Str(s: string)
    | Arr(items: seq<Json>)
    | Obj(fields: map<string, Json>)
}
