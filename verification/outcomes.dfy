/** The three failures of the bidding core and the result types that carry them.
    The source throws one exception class per failure; here each failure is a value. */
module Outcomes {

  /** InsufficientBalanceException, InvalidBidException and AuctionClosedException. */
  datatype Error = InsufficientBalance | InvalidBid | AuctionClosed

  /** The outcome of an operation that either completes or throws one of the errors. */
  datatype Outcome = Pass | Fail(error: Error)

  /** A value computed by an operation that may throw one of the errors. */
  datatype Result<T> = Ok(value: T) | Err(error: Error)

  datatype Option<T> = None | Some(value: T)
}
