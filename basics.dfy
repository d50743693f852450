/** Option and Result, for values the source may lack and operations that may raise. */
module Basics {

  datatype Option<+T> = None | Some(value: T)

  datatype Result<+T, +E> = Success(value: T) | Failure(error: E)
}

/** The match thresholds of the configuration (config/config.py). */
module Config {

  /** Gumtree threshold, also the default `min_match_ratio` of `is_relevant_match`. */
  const GumtreeThreshold: real := 0.435

  /** Fraction of model words an AutoTrader title must contain. */
  const AutotraderThreshold: real := 0.50

  /** Threshold for the WeBuyCars cache search. */
  const WebuycarsThreshold: real := 0.4575
}
