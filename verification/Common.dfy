/** What several modules share. */
module Common {

  type Byte = bv8

  datatype Option<+T> = None | Some(value: T)

  function Max(a: int, b: int): int { if a < b then b else a }

  function Min(a: int, b: int): int { if a < b then a else b }

  /** The byte `c` is the character `x`. */
  predicate Is(c: Byte, x: char) {
    c as int == x as int
  }

  /** `x` is the text `text`. */
  ghost predicate Spells(x: seq<Byte>, text: string) {
    |x| == |text| && forall i | 0 <= i < |x| :: Is(x[i], text[i])
  }
}
