/** Names that several components share. Instants and durations of the server are microseconds. */
module Common {

  type MessageId = string

  const HOUR: int := 3_600_000_000
  const DAY: int := 86_400_000_000
  const TOKYO_OFFSET: int := 32_400_000_000

  function Min(a: int, b: int): int {
    if a < b then a else b
  }

  function Max(a: int, b: int): int {
    if a < b then b else a
  }
}
