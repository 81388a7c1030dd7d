/** Values shared by every part of the model. */
module Prelude {

  datatype Option<+T> = None | Some(value: T)

  /** A UUID: a value that is only ever compared for equality. */
  datatype Uuid = Uuid(bits: nat)

  /** The all-zero UUID, which the source uses for "no entity". */
  const NIL_UUID := Uuid(0)

  /** A criticality; the source keeps it as a string, so an unlisted spelling is possible. */
  datatype Criticality = Low | Medium | High | CrownJewel | Unlisted(name: string)

  function CriticalityRank(c: Criticality): int {
    match c
    case CrownJewel => 3
    case High => 2
    case Medium => 1
    case _ => 0
  }

  function Min(a: int, b: int): int { if a < b then a else b }

  function Max(a: int, b: int): int { if a < b then b else a }
}
