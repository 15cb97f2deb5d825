/** Integers extended with the two infinities the search starts its bounds at
    (`float('-inf')` and `float('+inf')` in the agent). Only comparison, `max`,
    `min` and adding a finite bonus are ever applied to them. */
module ExtInts {

  datatype ExtInt = NegInf | Fin(n: int) | PosInf

  /** `x < y` on the extended line. */
  predicate Less(x: ExtInt, y: ExtInt) {
    match (x, y)
    case (NegInf, NegInf) => false
    case (NegInf, _) => true
    case (Fin(a), Fin(b)) => a < b
    case (Fin(_), PosInf) => true
    case (_, _) => false
  }

  /** `x <= y` on the extended line. */
  predicate LessEq(x: ExtInt, y: ExtInt) {
    !Less(y, x)
  }

  /** Python's `max(x, y)`: on a tie the first argument is kept, which is
      indistinguishable here because equal extended integers are identical. */
  function Max(x: ExtInt, y: ExtInt): (r: ExtInt)
    ensures LessEq(x, r) && LessEq(y, r)
    ensures r == x || r == y
  {
    if Less(x, y) then y else x
  }

  /** Python's `min(x, y)`. */
  function Min(x: ExtInt, y: ExtInt): (r: ExtInt)
    ensures LessEq(r, x) && LessEq(r, y)
    ensures r == x || r == y
  {
    if Less(y, x) then y else x
  }

  /** `x + k` for a finite `k`: an infinity absorbs any finite bonus. */
  function Plus(x: ExtInt, k: int): (r: ExtInt)
    ensures r.Fin? <==> x.Fin?
  {
    match x
    case Fin(a) => Fin(a + k)
    case _ => x
  }

  lemma LessTransitive(x: ExtInt, y: ExtInt, z: ExtInt)
    requires LessEq(x, y) && Less(y, z)
    ensures Less(x, z)
  {
  }

  lemma LessEqTransitive(x: ExtInt, y: ExtInt, z: ExtInt)
    requires LessEq(x, y) && LessEq(y, z)
    ensures LessEq(x, z)
  {
  }
}
