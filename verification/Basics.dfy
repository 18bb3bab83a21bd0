/** The machine types of the program, optional values, and the spelling of numbers. */
module Basics {
  datatype Option<T> = None | Some(value: T)

  const INT_MAX: int := 0x7FFF_FFFF
  const U32 := 0x1_0000_0000
  const U64 := 0x1_0000_0000_0000_0000

  type Byte = x: int | 0 <= x < 256
  type int32 = x: int | -0x8000_0000 <= x <= 0x7FFF_FFFF
  type uint32 = x: int | 0 <= x < U32
  type uint64 = x: int | 0 <= x < U64

  /** The pieces of a stream put together. */
  function Joined<T>(pieces: seq<seq<T>>): seq<T> {
    if pieces == [] then [] else Joined(pieces[..|pieces| - 1]) + pieces[|pieces| - 1]
  }

  const LOWER: seq<char> := "0123456789abcdef"
  const UPPER: seq<char> := "0123456789ABCDEF"

  /** The text spells n in base 16: leading zeros are allowed, and each digit is in either case. */
  predicate Spells(text: seq<char>, n: nat) {
    && text != []
    && (text[|text| - 1] == LOWER[n % 16] || text[|text| - 1] == UPPER[n % 16])
    && if |text| == 1 then n < 16 else Spells(text[..|text| - 1], n / 16)
  }
}
