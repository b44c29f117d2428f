/** The two kinds of floating-point value the decoding controller inspects.

    Scores are `f64` values that can be NaN (the placeholder compression ratio,
    a no-speech probability never computed) or negative infinity (the log of
    a zero probability); both are explicit here so that every comparison the
    controller makes against a threshold has IEEE 754 meaning: a comparison
    with NaN is false.

    Logits are modelled as integers; once the suppression mask has been added
    they are either finite or negative infinity. */
module Floats {

  /** An `f64` score: NaN, negative infinity or a finite (exact) real. */
  datatype F64 = NaN | NegInfinity | Num(r: real)

  /** IEEE addition restricted to the values a running log-probability sum can take. */
  function Add(a: F64, b: F64): (s: F64)
    ensures s.NaN? <==> a.NaN? || b.NaN?
    ensures a.Num? && b.Num? ==> s == Num(a.r + b.r)
    ensures s.NegInfinity? <==> !a.NaN? && !b.NaN? && (a.NegInfinity? || b.NegInfinity?)
  {
    match (a, b)
    case (NaN, _) => NaN
    case (_, NaN) => NaN
    case (NegInfinity, _) => NegInfinity
    case (_, NegInfinity) => NegInfinity
    case (Num(x), Num(y)) => Num(x + y)
  }

  /** `a / (n as f64)` for a positive count `n`. */
  function DivByCount(a: F64, n: nat): (q: F64)
    requires n > 0
    ensures q.NaN? <==> a.NaN?
    ensures q.NegInfinity? <==> a.NegInfinity?
    ensures a.Num? ==> q.Num? && q.r * (n as real) == a.r
  {
    match a
    case NaN => NaN
    case NegInfinity => NegInfinity
    case Num(x) => Num(x / (n as real))
  }

  /** `a > c` for a finite threshold `c`. */
  predicate Gt(a: F64, c: real) {
    a.Num? && a.r > c
  }

  /** `a < c` for a finite threshold `c`. */
  predicate Lt(a: F64, c: real) {
    a.NegInfinity? || (a.Num? && a.r < c)
  }

  /** A score that is a log-probability: negative infinity or a real at most 0. */
  predicate NonPositive(a: F64) {
    a.NegInfinity? || (a.Num? && a.r <= 0.0)
  }

  lemma {:induction false} AddNonPositive(a: F64, b: F64)
    requires NonPositive(a) && NonPositive(b)
    ensures NonPositive(Add(a, b))
  {
  }

  lemma {:induction false} DivNonPositive(a: F64, n: nat)
    requires n > 0 && NonPositive(a)
    ensures NonPositive(DivByCount(a, n))
  {
    if a.Num? {
      var n' := n as real;
      assert a.r / n' <= 0.0 by {
        assert (a.r / n') * n' == a.r;
      }
    }
  }

  /** A logit after the suppression mask was added: finite or negative infinity. */
  datatype Logit = NegInf | Fin(v: int)

  /** Element-wise `f32` addition of a logit and a mask entry. */
  function Plus(a: Logit, b: Logit): (s: Logit)
    ensures s.NegInf? <==> a.NegInf? || b.NegInf?
    ensures a.Fin? && b.Fin? ==> s == Fin(a.v + b.v)
  {
    if a.NegInf? || b.NegInf? then NegInf else Fin(a.v + b.v)
  }

  /** The order `f32::total_cmp` puts on these values: `a <= b`. */
  predicate LogitLe(a: Logit, b: Logit) {
    a.NegInf? || (b.Fin? && a.v <= b.v)
  }

  /** Raw decoder logits as `f32` values. */
  function Lift(xs: seq<int>): (ys: seq<Logit>)
    ensures |ys| == |xs|
    ensures forall i | 0 <= i < |xs| :: ys[i] == Fin(xs[i])
  {
    seq(|xs|, i requires 0 <= i < |xs| => Fin(xs[i]))
  }
}
