/** Units of measure and their numeric codes in the Petra GRD header. */
module Units {
  import opened Primitives

  datatype Option<+T> = None | Some(value: T)

  datatype UnitOfMeasure = Feet | Meters

  /** `UnitOfMeasure::from_code`: 0 is feet, 1 is meters, anything else is
      unknown. */
  function FromCode(code: u32): (u: Option<UnitOfMeasure>)
    ensures u.Some? <==> code <= 1
  {
    match code
    case 0 => Some(Feet)
    case 1 => Some(Meters)
    case _ => None
  }

  /** The code a unit is stored as. */
  function ToCode(u: UnitOfMeasure): u32 {
    match u
    case Feet => 0
    case Meters => 1
  }

  /** FromCode and ToCode are inverse: every unit has exactly one code, and
      a code decodes to a unit only if it is that unit's code. */
  lemma FromCodeInvertsToCode(u: UnitOfMeasure, code: u32)
    ensures FromCode(ToCode(u)) == Some(u)
    ensures FromCode(code) == Some(u) <==> code == ToCode(u)
  {
  }
}
