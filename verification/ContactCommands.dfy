/** What both modes of the background contact reconcile send to the radio, and its answers. */
module ContactCommands {
  /** A lower-case, full-length public key. */
  type Key = string

  const BATCH_SIZE: nat := 2

  datatype Reply = Ok | Error(code: int) | NoAnswer | Raised

  /** "Not found" (code 2) counts as gone. */
  predicate Gone(r: Reply) {
    r.Ok? || r == Error(2)
  }

  predicate TableFull(r: Reply) {
    r == Error(3)
  }
}
