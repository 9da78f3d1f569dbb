/**
 JSON values as Python holds them, and what float(), len(), hashing and comparison make of them.  Finite floats are
 exact reals; NaN and the infinities, which json.loads accepts, follow IEEE 754.
 */
module JsonValues {
  import opened Common

  datatype Float = Finite(value: real) | NaN | PosInf | NegInf

  /** A text also says what float() makes of it, if anything. */
  datatype Json =
    | Null
    | Bool(truth: bool)
    | Number(value: Float)
    | Text(text: string, asFloat: Option<Float>)
    | List(items: seq<Json>)
    | Object(fields: map<string, Json>)

  function Num(x: real): Json {
    Number(Finite(x))
  }

  /** A text that is no number. */
  function Str(s: string): Json {
    Text(s, None)
  }

  /** The number a comparison with a number sees; on any other value it raises. */
  function NumberOf(j: Json): Option<Float> {
    match j
    case Number(x) => Some(x)
    case Bool(b) => Some(Finite(if b then 1.0 else 0.0))
    case _ => None
  }

  /** float(...), None where it raises. */
  function FloatOf(j: Json): Option<Float> {
    match j
    case Text(_, x) => x
    case _ => NumberOf(j)
  }

  predicate HasLength(j: Json) {
    j.Text? || j.List? || j.Object?
  }

  predicate IsHashable(j: Json) {
    !j.List? && !j.Object?
  }

  // ----- comparison: false as soon as a NaN takes part -----

  predicate Less(a: Float, b: Float) {
    match (a, b)
    case (Finite(x), Finite(y)) => x < y
    case (Finite(_), PosInf) => true
    case (NegInf, Finite(_)) => true
    case (NegInf, PosInf) => true
    case _ => false
  }

  predicate AtMost(a: Float, b: Float) {
    Less(a, b) || (a == b && !a.NaN?)
  }

  /** min(a, b) and max(a, b) keep `a` unless `b` is strictly better. */
  function Min(a: Float, b: Float): Float {
    if Less(b, a) then b else a
  }

  function Max(a: Float, b: Float): Float {
    if Less(a, b) then b else a
  }

  // ----- arithmetic -----

  function Negate(a: Float): Float {
    match a
    case Finite(x) => Finite(-x)
    case NaN => NaN
    case PosInf => NegInf
    case NegInf => PosInf
  }

  function Plus(a: Float, b: Float): Float {
    match (a, b)
    case (Finite(x), Finite(y)) => Finite(x + y)
    case (NaN, _) => NaN
    case (_, NaN) => NaN
    case (Finite(_), _) => b
    case (_, Finite(_)) => a
    case _ => if a == b then a else NaN
  }

  function Minus(a: Float, b: Float): Float {
    Plus(a, Negate(b))
  }

  function Times(a: Float, b: Float): Float {
    if a.Finite? && b.Finite? then Finite(a.value * b.value)
    else if a.NaN? || b.NaN? || a == Finite(0.0) || b == Finite(0.0) then NaN
    else if Less(a, Finite(0.0)) == Less(b, Finite(0.0)) then PosInf
    else NegInf
  }

  function Over(a: Float, b: Float): Float
    requires Less(Finite(0.0), b)
  {
    if a.Finite? && b.Finite? then Finite(a.value / b.value)
    else if b.Finite? then a
    else if a.Finite? then Finite(0.0)
    else NaN
  }

  // ----- laws -----

  /** Two numbers are equal or one is less; a NaN is neither. */
  lemma Trichotomy(a: Float, b: Float)
    ensures !(Less(a, b) && Less(b, a)) && !(Less(a, b) && a == b)
    ensures Less(a, b) || Less(b, a) || a == b <==> (!a.NaN? && !b.NaN?) || a == b
  {
  }

  lemma SumLaws(a: Float, b: Float)
    ensures Plus(a, b) == Plus(b, a)
    ensures Minus(a, a) == if a.Finite? then Finite(0.0) else NaN
    ensures Plus(a, a) == if a.Finite? then Finite(a.value + a.value) else a
  {
  }

  lemma InfinityLaws(a: Float)
    ensures Times(PosInf, a) == if Less(Finite(0.0), a) then PosInf else if Less(a, Finite(0.0)) then NegInf else NaN
    ensures Times(a, PosInf) == Times(PosInf, a) && Times(a, NegInf) == Negate(Times(a, PosInf))
    ensures Over(a, PosInf) == if a.Finite? then Finite(0.0) else NaN
    ensures !a.Finite? ==> Over(a, Finite(1.0)) == a
  {
  }
}
