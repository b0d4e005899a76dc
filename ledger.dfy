/**
 * Vocabulary shared by the backend and the client: the persisted status of a
 * reservation row, and the units used for time and money.
 *
 * Time is an instant in milliseconds (the source compares `Date` objects and
 * adds `hours * 60 * 60 * 1000`); money is an integer number of cents.
 */
module Ledger {

  /** The `reservations.status` column: only these three values are ever written. */
  datatype LedgerStatus = Active | Cancelled | Completed

  type Instant = int
  type Cents = int

  /** One hour in milliseconds. */
  const HourMs: int := 60 * 60 * 1000
}
