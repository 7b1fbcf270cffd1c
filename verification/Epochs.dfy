/** Epoch identity and the int64 totals an epoch carries. */
module Epochs {
  datatype Resource = Resource(name: string)

  /** A stream worker and its ownership token. */
  datatype Attempt = Attempt(run: string, execution: string, stream: string, generation: int, token: int)

  datatype EpochRef = EpochRef(attempt: Attempt, epoch: int, revision: int)

  /** A certificate's identity across attempts. */
  datatype EpochKey = EpochKey(stream: string, generation: int, epoch: int)

  predicate ValidAttempt(a: Attempt) {
    a.run != "" && a.execution != "" && a.stream != "" && a.generation > 0 && a.token > 0
  }

  predicate ValidRef(r: EpochRef) { ValidAttempt(r.attempt) && r.epoch > 0 && r.revision > 0 }

  function Key(r: EpochRef): EpochKey { EpochKey(r.attempt.stream, r.attempt.generation, r.epoch) }

  datatype Totals = Totals(rows: int, bytes: int)

  const MAX_INT64 := 0x7FFF_FFFF_FFFF_FFFF

  predicate IsInt64(n: int) { -MAX_INT64 - 1 <= n <= MAX_INT64 }

  /** Int64 addition wraps. */
  function Wrap64(n: int): (w: int)
    ensures IsInt64(w) && (IsInt64(n) ==> w == n)
  {
    (n + 0x8000_0000_0000_0000) % 0x1_0000_0000_0000_0000 - 0x8000_0000_0000_0000
  }

  function Plus(t: Totals, rows: int, bytes: int): Totals { Totals(Wrap64(t.rows + rows), Wrap64(t.bytes + bytes)) }
}
