/** Shared vocabulary of the InvestMon model: optional values, dates, symbols. */
module Basics {

  /** A nullable column or a lookup that may find nothing. */
  datatype Option<+T> = None | Some(value: T)

  /** A calendar day. Stored dates are `YYYY-MM-DD` strings, whose lexicographic
      order is the calendar order; the model encodes a day as an integer with
      the same order (for instance 20240131). */
  type Date = int

  /** A ticker symbol, or the sentinel `NonStock`. */
  type Symbol = string

  /** The symbol of a manually valued, non-traded holding. */
  const NonStock: Symbol := "NON-STOCK"

  /** Python truthiness of a nullable float column: `None` and `0.0` are falsy. */
  predicate Truthy(x: Option<real>) {
    x.Some? && x.value != 0.0
  }
}
