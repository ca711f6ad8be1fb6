/**
 * Quantities and units of the decoded fields, and the scalar conversion the
 * getters apply when a caller asks for a unit other than the canonical one
 * (kWh, m3, kW, m3/h, degrees Celsius). A unit may only be converted to a
 * unit of the same Quantity; the getters state that as their precondition.
 */
module Units {

  datatype Quantity = Energy | Volume | Power | Flow | Temperature | Text

  datatype Unit = KWH | MJ | GJ | M3 | L | KW | M3H | LH | C | K | TXT

  function QuantityOf(u: Unit): Quantity
  {
    match u
    case KWH | MJ | GJ => Energy
    case M3 | L => Volume
    case KW => Power
    case M3H | LH => Flow
    case C | K => Temperature
    case TXT => Text
  }

  /** The canonical unit of each Quantity: the unit values are stored in. */
  function CanonicalUnit(q: Quantity): (u: Unit)
    ensures QuantityOf(u) == q
  {
    match q
    case Energy => KWH
    case Volume => M3
    case Power => KW
    case Flow => M3H
    case Temperature => C
    case Text => TXT
  }

  /** How many canonical units one unit of u is. */
  function Scale(u: Unit): (s: real)
    ensures s > 0.0
  {
    match u
    case MJ => 1.0 / 3.6
    case GJ => 1000.0 / 3.6
    case L | LH => 0.001
    case _ => 1.0
  }

  /** Where zero of u lies on the canonical scale (only kelvin is shifted). */
  function Offset(u: Unit): real
  {
    if u == K then -273.15 else 0.0
  }

  function ToCanonical(v: real, u: Unit): real
  {
    v * Scale(u) + Offset(u)
  }

  function FromCanonical(c: real, u: Unit): real
  {
    (c - Offset(u)) / Scale(u)
  }

  /** Converts v from unit `from` to unit `to` of the same Quantity. */
  function Convert(v: real, from: Unit, to: Unit): (r: real)
    requires QuantityOf(from) == QuantityOf(to)
    ensures from == to ==> r == v
  {
    if from == to then v else FromCanonical(ToCanonical(v, from), to)
  }

  lemma AffineInverse(v: real, sa: real, oa: real, sb: real, ob: real)
    requires sa > 0.0 && sb > 0.0
    ensures ((v * sa + oa - ob) / sb * sb + ob - oa) / sa == v
  {
    var c := v * sa + oa - ob;
    assert c / sb * sb == c;
    assert (c + ob - oa) / sa == v * sa / sa;
  }

  /** Converting there and back gives the value back exactly. */
  lemma ConvertRoundTrip(v: real, a: Unit, b: Unit)
    requires QuantityOf(a) == QuantityOf(b)
    ensures Convert(Convert(v, a, b), b, a) == v
  {
    if a != b {
      AffineInverse(v, Scale(a), Offset(a), Scale(b), Offset(b));
    }
  }
}
