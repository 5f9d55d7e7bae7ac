/** The ANSI escape sequences the program prints when colour output is on.
    They are treated as opaque constants: the model only relies on each one
    starting with the escape character, which no other text it prints contains. */
module Ansi {

  const Esc: char := 27 as char

  const Red: string := [Esc] + "[1;31m"
  const Green: string := [Esc] + "[1;32m"
  const Yellow: string := [Esc] + "[1;33m"
  const Blue: string := [Esc] + "[1;34m"
  const Magenta: string := [Esc] + "[1;35m"
  const Reset: string := [Esc] + "[0m"

  /** True of text that carries no escape sequence. */
  predicate Plain(s: string)
  {
    Esc !in s
  }

  /** `s` wrapped in `colour` and the reset sequence when `on`, and `s` itself otherwise. */
  function Paint(s: string, colour: string, on: bool): (r: string)
    requires colour == Red || colour == Green || colour == Yellow || colour == Blue || colour == Magenta
    ensures Plain(s) ==> (Plain(r) <==> !on)
    ensures on ==> |r| > |s|
    ensures !on ==> r == s
  {
    if on then colour + s + Reset else s
  }
}
