/** Doubles as the learner uses them: a real number or one of the two infinities.
    NaN never arises in the modelled paths and is not represented. */
module ExtReals {

  datatype Ext = NegInf | Fin(v: real) | PosInf

  /** The strict order of doubles restricted to non-NaN values. */
  predicate Less(x: Ext, y: Ext) {
    match x
    case NegInf => !y.NegInf?
    case Fin(a) => (y.Fin? && a < y.v) || y.PosInf?
    case PosInf => false
  }

  predicate AtMost(x: Ext, y: Ext) {
    x == y || Less(x, y)
  }

  /** The larger of two values; on equality the first one is kept. */
  function Max(x: Ext, y: Ext): (m: Ext)
    ensures AtMost(x, m) && AtMost(y, m)
    ensures m == x || m == y
  {
    if Less(x, y) then y else x
  }

  lemma LessTransitive(x: Ext, y: Ext, z: Ext)
    requires Less(x, y) && Less(y, z)
    ensures Less(x, z)
  {
  }

  lemma AtMostTransitive(x: Ext, y: Ext, z: Ext)
    requires AtMost(x, y) && AtMost(y, z)
    ensures AtMost(x, z)
  {
  }

  lemma AtMostLess(x: Ext, y: Ext, z: Ext)
    requires AtMost(x, y) && Less(y, z)
    ensures Less(x, z)
  {
  }

  lemma LessTotal(x: Ext, y: Ext)
    ensures Less(x, y) || x == y || Less(y, x)
  {
  }
}
