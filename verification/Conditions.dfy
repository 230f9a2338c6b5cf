/** evaluate_condition: one filter of a workflow against the payload. */
module Conditions {
  import opened Json
  import opened Options
  import opened Paths
  import opened Workflows

  /** The Python built-ins the filter leans on: str, str.lower and float on a string. */
  datatype Python = Python(show: Json -> string, lower: string -> string, parse: string -> Option<Float>)

  /** float(val); None stands for ValueError and TypeError. */
  function ToFloat(py: Python, v: Json): Option<Float> {
    match v
    case Bool(b) => Some(Finite(if b then 1.0 else 0.0))
    case Int(i) => Some(Finite(i as real))
    case Num(x) => Some(x)
    case Str(s) => py.parse(s)
    case _ => None
  }

  /** bool(val). */
  predicate Truthy(v: Json) {
    match v
    case Null => false
    case Bool(b) => b
    case Int(i) => i != 0
    case Num(x) => x != Finite(0.0)
    case Str(s) => s != ""
    case Arr(items) => items != []
    case Obj(fields) => fields != map[]
  }

  /** x < y on floats: NaN compares false. */
  predicate Less(x: Float, y: Float) {
    match (x, y)
    case (Finite(r), Finite(q)) => r < q
    case (NegInf, Finite(_)) => true
    case (NegInf, PosInf) => true
    case (Finite(_), PosInf) => true
    case _ => false
  }

  predicate Equal(x: Float, y: Float) { x == y && !x.NaN? }

  function Folded(py: Python, v: Json): string { py.lower(py.show(v)) }

  /** t in s. */
  predicate Contains(s: string, t: string) {
    t <= s || (s != "" && Contains(s[1..], t))
  }

  predicate Compare(op: string, x: Float, y: Float) {
    match op
    case "gt" => Less(y, x)
    case "ge" => Less(y, x) || Equal(x, y)
    case "lt" => Less(x, y)
    case "le" => Less(x, y) || Equal(x, y)
    case _ => false
  }

  predicate EvaluateCondition(py: Python, payload: map<string, Json>, c: Condition) {
    var val := Nested(payload, c.field);
    var op := c.operator;
    if val.Null? && op !in {"is_true", "is_false", "ne"} then false
    else if op == "eq" then Folded(py, val) == Folded(py, c.value)
    else if op == "ne" then Folded(py, val) != Folded(py, c.value)
    else if op == "is_true" then Truthy(val)
    else if op == "is_false" then !Truthy(val)
    else if op == "contains" then Contains(Folded(py, val), Folded(py, c.value))
    else if op in {"gt", "ge", "lt", "le"} && !c.value.Null? then
      var x, y := ToFloat(py, val), ToFloat(py, c.value);
      x.Some? && y.Some? && Compare(op, x.value, y.value)
    else false
  }

  /** The verdict depends on the payload only through the value at the condition's path. */
  lemma DependsOnField(py: Python, payload: map<string, Json>, payload': map<string, Json>, c: Condition)
    requires Nested(payload, c.field) == Nested(payload', c.field)
    ensures EvaluateCondition(py, payload, c) == EvaluateCondition(py, payload', c)
  {
  }

  /** A missing or null field passes only is_false, and ne against anything but what None reads as. */
  lemma MissingField(py: Python, payload: map<string, Json>, c: Condition)
    requires Nested(payload, c.field).Null?
    ensures EvaluateCondition(py, payload, c) <==>
              c.operator == "is_false" || (c.operator == "ne" && Folded(py, Null) != Folded(py, c.value))
  {
  }

  /** For a present field and target, ge and lt are opposite verdicts exactly when both sides are numbers
      and neither is NaN; otherwise both fail. */
  lemma OrderIsTotalIffNumeric(py: Python, payload: map<string, Json>, field: string, target: Json)
    requires !Nested(payload, field).Null? && !target.Null?
    ensures var ge := EvaluateCondition(py, payload, Condition(field, "ge", target));
            var lt := EvaluateCondition(py, payload, Condition(field, "lt", target));
            var x, y := ToFloat(py, Nested(payload, field)), ToFloat(py, target);
            && !(ge && lt)
            && (ge || lt <==> x.Some? && y.Some? && !x.value.NaN? && !y.value.NaN?)
  {
  }

  /** A value that float() reads as the number x. */
  predicate Reads(py: Python, v: Json, x: real) {
    match v
    case Bool(b) => x == if b then 1.0 else 0.0
    case Int(i) => x == i as real
    case Num(f) => f == Finite(x)
    case Str(s) => py.parse(s) == Some(Finite(x))
    case _ => false
  }

  /** A value that float() rejects. */
  predicate NoNumber(py: Python, v: Json) {
    v.Null? || v.Arr? || v.Obj? || (v.Str? && py.parse(v.s).None?)
  }

  predicate Passes(py: Python, payload: map<string, Json>, field: string, op: string, target: Json) {
    EvaluateCondition(py, payload, Condition(field, op, target))
  }

  /** On numbers, however they are written, the four operators compare as the numbers do. */
  lemma NumbersCompare(py: Python, payload: map<string, Json>, field: string, target: Json, x: real, y: real)
    requires Reads(py, Nested(payload, field), x) && Reads(py, target, y)
    ensures Passes(py, payload, field, "gt", target) <==> x > y
    ensures Passes(py, payload, field, "ge", target) <==> x >= y
    ensures Passes(py, payload, field, "lt", target) <==> x < y
    ensures Passes(py, payload, field, "le", target) <==> x <= y
  {
    hide Nested, Contains, Folded;
  }

  /** Raising the payload's number keeps gt and ge and lowering it keeps lt and le. */
  lemma OrderFollowsPayload(py: Python, lower: map<string, Json>, higher: map<string, Json>, field: string,
                            target: Json, x: real, x': real, y: real)
    requires Reads(py, Nested(lower, field), x) && Reads(py, Nested(higher, field), x') && Reads(py, target, y)
    requires x <= x'
    ensures Passes(py, lower, field, "gt", target) ==> Passes(py, higher, field, "gt", target)
    ensures Passes(py, lower, field, "ge", target) ==> Passes(py, higher, field, "ge", target)
    ensures Passes(py, higher, field, "lt", target) ==> Passes(py, lower, field, "lt", target)
    ensures Passes(py, higher, field, "le", target) ==> Passes(py, lower, field, "le", target)
  {
    hide EvaluateCondition;
    NumbersCompare(py, lower, field, target, x, y);
    NumbersCompare(py, higher, field, target, x', y);
  }

  /** Without a number on either side, or with NaN on one, no order holds; infinities lie beyond all numbers. */
  lemma BeyondNumbers(py: Python, payload: map<string, Json>, field: string, target: Json, op: string)
    requires op in {"gt", "ge", "lt", "le"}
    ensures var v := Nested(payload, field);
            && (NoNumber(py, v) || NoNumber(py, target) || v == Num(NaN) || target == Num(NaN) ==>
                !Passes(py, payload, field, op, target))
            && (forall y :: v == Num(PosInf) && Reads(py, target, y) ==>
                (Passes(py, payload, field, op, target) <==> op == "gt" || op == "ge"))
            && (forall y :: v == Num(NegInf) && Reads(py, target, y) ==>
                (Passes(py, payload, field, op, target) <==> op == "lt" || op == "le"))
  {
    hide Nested, Contains, Folded;
  }

  /** ne is the opposite of eq for a present field, and eq holds of a value against itself and of any texts that
      agree once shown and lowered. */
  lemma EqualityLaws(py: Python, payload: map<string, Json>, field: string, target: Json)
    requires !Nested(payload, field).Null?
    ensures Passes(py, payload, field, "ne", target) <==> !Passes(py, payload, field, "eq", target)
    ensures Passes(py, payload, field, "eq", Nested(payload, field))
    ensures Passes(py, payload, field, "eq", target)
       <==> py.lower(py.show(target)) == py.lower(py.show(Nested(payload, field)))
  {
  }

  lemma {:induction false} ContainsIff(s: string, t: string)
    ensures Contains(s, t) <==> exists u, v :: s == u + t + v
  {
    if t <= s {
      assert s == "" + t + s[|t|..];
    } else if s != "" {
      ContainsIff(s[1..], t);
      if u, v :| s[1..] == u + t + v {
        assert s == ([s[0]] + u) + t + v;
      }
      if u, v :| s == u + t + v {
        assert u == "" ==> t + v == s;
        assert s[1..] == u[1..] + t + v;
      }
    }
  }

  /** contains holds exactly when the lowered text of the value has the target's in it. */
  lemma ContainsLaw(py: Python, payload: map<string, Json>, field: string, target: Json)
    requires !Nested(payload, field).Null?
    ensures Passes(py, payload, field, "contains", target)
       <==> exists u, v :: py.lower(py.show(Nested(payload, field))) == u + py.lower(py.show(target)) + v
  {
    ContainsIff(Folded(py, Nested(payload, field)), Folded(py, target));
  }

  /** is_true and is_false: false are a missing value, false, zero and everything empty. */
  lemma TruthTable(py: Python, payload: map<string, Json>, field: string, target: Json)
    ensures Passes(py, payload, field, "is_false", target) <==> !Passes(py, payload, field, "is_true", target)
    ensures Passes(py, payload, field, "is_false", target)
       <==> Nested(payload, field)
            in {Null, Bool(false), Int(0), Num(Finite(0.0)), Str(""), Arr([]), Obj(map[])}
  {
    hide Nested, Contains, Folded, ToFloat, Compare;
  }

  /** Any other operator passes nothing. */
  lemma UnknownOperator(py: Python, payload: map<string, Json>, c: Condition)
    requires c.operator !in {"eq", "ne", "is_true", "is_false", "contains", "gt", "ge", "lt", "le"}
    ensures !EvaluateCondition(py, payload, c)
  {
  }

  predicate AllHold(py: Python, payload: map<string, Json>, conditions: seq<Condition>) {
    forall i :: 0 <= i < |conditions| ==> EvaluateCondition(py, payload, conditions[i])
  }
}
