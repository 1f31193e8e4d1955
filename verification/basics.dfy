/** Small shared vocabulary: an optional value, used wherever a JavaScript
    operation can produce "nothing" (a failed parse, a thrown call, an absent file). */
module Basics {

  datatype Option<+T> = None | Some(value: T)

  /** The smaller of two integers, used for the prompt's truncation length. */
  function Min(a: int, b: int): (m: int)
    ensures m <= a && m <= b
    ensures m == a || m == b
  {
    if a <= b then a else b
  }
}
