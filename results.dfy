/** Failure-carrying values for the checks that the entity classes signal with exceptions. */
module Results {

  /** One constructor per exception the core throws. */
  datatype Fault =
    | EmptyName         // a product name that is the empty string
    | NegativeCost      // a product cost below zero
    | NegativeStock     // an initial stock count below zero
    | NoStockAvailable  // taking one unit from an entry that has none left

  /** The outcome of a validating constructor: the new value, or the exception it throws. */
  datatype Result<+T> = Ok(value: T) | Err(fault: Fault)

  /** The outcome of an operation that returns nothing but may throw. */
  datatype Outcome = Pass | Fail(fault: Fault)

  /** A reference that may be null or of an unrelated class (`None`), or a value of the expected class. */
  datatype Option<+T> = None | Some(value: T)
}
