/**
 What several components share: optional values, bytes as numbers, points of the screen,
 and the larger of two numbers.
 */
module Basics {
  datatype Option<+T> = None | Some(value: T)

  type Octet = b: int | 0 <= b < 256

  datatype Point = Point(x: int, y: int)

  function Min(a: int, b: int): int { if a < b then a else b }

  function Max(a: int, b: int): int { if a < b then b else a }
}
