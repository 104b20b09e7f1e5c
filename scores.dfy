/** Search scores: integers extended with the two sentinels the engine uses
    for -Infinity and +Infinity (services/chessEngine.ts:112, 123, 165-167). */
module Scores {

  datatype Score = NegInf | Fin(n: int) | PosInf

  /** The order of JavaScript numbers restricted to integers and +-Infinity. */
  predicate Le(a: Score, b: Score) {
    a == NegInf || b == PosInf || (a.Fin? && b.Fin? && a.n <= b.n)
  }

  predicate Lt(a: Score, b: Score) {
    !Le(b, a)
  }

  /** Math.max on two scores. */
  function Max(a: Score, b: Score): (r: Score)
    ensures Le(a, r) && Le(b, r)
    ensures r == a || r == b
  {
    if Le(a, b) then b else a
  }

  /** Math.min on two scores. */
  function Min(a: Score, b: Score): (r: Score)
    ensures Le(r, a) && Le(r, b)
    ensures r == a || r == b
  {
    if Le(a, b) then a else b
  }

  /** The score x seen through the window [lo, hi]. */
  function Clamp(x: Score, lo: Score, hi: Score): Score {
    Min(Max(x, lo), hi)
  }

  lemma LeTotal(a: Score, b: Score)
    ensures Le(a, b) || Le(b, a)
    ensures Le(a, b) && Le(b, a) ==> a == b
  {
  }

  lemma LeTrans(a: Score, b: Score, c: Score)
    requires Le(a, b) && Le(b, c)
    ensures Le(a, c)
  {
  }

  lemma MaxAssoc(a: Score, b: Score, c: Score)
    ensures Max(Max(a, b), c) == Max(a, Max(b, c))
    ensures Max(a, b) == Max(b, a)
  {
  }

  lemma MinAssoc(a: Score, b: Score, c: Score)
    ensures Min(Min(a, b), c) == Min(a, Min(b, c))
    ensures Min(a, b) == Min(b, a)
  {
  }

  /** With lo <= hi, clamping from below first or from above first agree. */
  lemma ClampDual(x: Score, lo: Score, hi: Score)
    requires Le(lo, hi)
    ensures Clamp(x, lo, hi) == Max(Min(x, hi), lo)
  {
  }

  /** The full window leaves every score as it is. */
  lemma ClampFull(x: Score)
    ensures Clamp(x, NegInf, PosInf) == x
  {
  }

  // ---------------------------------------------------------------------------
  // Window facts used by the alpha-beta proof

  /** Raising the floor of a window by x is the same as taking the max with x first. */
  lemma ClampMaxShift(x: Score, y: Score, lo: Score, hi: Score)
    ensures Clamp(Max(x, y), lo, hi) == Clamp(y, Max(lo, x), hi)
  {
  }

  /** Lowering the ceiling of a window by x is the same as taking the min with x first. */
  lemma ClampMinShift(x: Score, y: Score, lo: Score, hi: Score)
    requires Le(lo, Min(hi, x))
    ensures Clamp(Min(x, y), lo, hi) == Clamp(y, lo, Min(hi, x))
  {
    ClampDual(Min(x, y), lo, hi);
    ClampDual(y, lo, Min(hi, x));
  }

  /** Two scores that look alike through [lo, hi] raise a floor below hi alike. */
  lemma RaisedFloorAgrees(x: Score, y: Score, lo: Score, hi: Score)
    requires Clamp(x, lo, hi) == Clamp(y, lo, hi)
    requires Lt(Max(lo, x), hi)
    ensures Max(lo, x) == Max(lo, y)
  {
  }

  /** Two scores that look alike through [lo, hi] lower a ceiling above lo alike. */
  lemma LoweredCeilingAgrees(x: Score, y: Score, lo: Score, hi: Score)
    requires Clamp(x, lo, hi) == Clamp(y, lo, hi)
    requires Lt(lo, Min(hi, x))
    ensures Min(hi, x) == Min(hi, y)
  {
  }

  /** Once the raised floor reaches hi, the score reads as hi, and so does any max with it. */
  lemma CutAtCeiling(x: Score, y: Score, z: Score, lo: Score, hi: Score)
    requires Lt(lo, hi) && Le(hi, Max(lo, x))
    requires Clamp(x, lo, hi) == Clamp(y, lo, hi)
    ensures Clamp(x, lo, hi) == hi && Clamp(Max(y, z), lo, hi) == hi
  {
  }

  /** Once the lowered ceiling reaches lo, the score reads as lo, and so does any min with it. */
  lemma CutAtFloor(x: Score, y: Score, z: Score, lo: Score, hi: Score)
    requires Lt(lo, hi) && Le(Min(hi, x), lo)
    requires Clamp(x, lo, hi) == Clamp(y, lo, hi)
    ensures Clamp(x, lo, hi) == lo && Clamp(Min(y, z), lo, hi) == lo
  {
  }

  /** One step of a maximising loop: a child value v that looks like w through
      [alpha, beta] keeps the running maximum in step with the true one. */
  lemma MaxStepAgrees(alpha0: Score, alpha: Score, beta: Score, best: Score, V: Score, v: Score, w: Score)
    requires alpha == Max(alpha0, best) && Lt(alpha, beta)
    requires Clamp(best, alpha0, beta) == Clamp(V, alpha0, beta)
    requires Clamp(v, alpha, beta) == Clamp(w, alpha, beta)
    ensures Clamp(Max(best, v), alpha0, beta) == Clamp(Max(V, w), alpha0, beta)
    ensures Max(alpha, v) == Max(alpha0, Max(best, v))
  {
    RaisedFloorAgrees(best, V, alpha0, beta);
    ClampMaxShift(best, v, alpha0, beta);
    ClampMaxShift(V, w, alpha0, beta);
    MaxAssoc(alpha0, best, v);
  }

  /** One step of a minimising loop, dual of MaxStepAgrees. */
  lemma MinStepAgrees(beta0: Score, alpha: Score, beta: Score, best: Score, V: Score, v: Score, w: Score)
    requires beta == Min(beta0, best) && Lt(alpha, beta)
    requires Clamp(best, alpha, beta0) == Clamp(V, alpha, beta0)
    requires Clamp(v, alpha, beta) == Clamp(w, alpha, beta)
    ensures Clamp(Min(best, v), alpha, beta0) == Clamp(Min(V, w), alpha, beta0)
    ensures Min(beta, v) == Min(beta0, Min(best, v))
  {
    LoweredCeilingAgrees(best, V, alpha, beta0);
    ClampMinShift(best, v, alpha, beta0);
    ClampMinShift(V, w, alpha, beta0);
    MinAssoc(beta0, best, v);
  }
}
