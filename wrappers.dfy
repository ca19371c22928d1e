/** Failure-carrying results shared by every module of the engine model. */
module Wrappers {

  datatype Option<+T> = None | Some(value: T)

  /** The JavaScript code reports failure by throwing; `Err` carries the message kind. */
  datatype Result<+T> = Ok(value: T) | Err(error: Error)

  /** The distinct exceptions the engine throws. */
  datatype Error =
    | TypeError(what: string)          // a runtime TypeError raised by the language itself
    | UnknownMethod(name: string)      // merge: method not in hash/loop/hashDistinct
    | MustLoopMerge                    // merge: hashing forced but the matcher does not decompose
    | BadMapperKeywords                // normalizeMapper: keywords outside the allowed six
    | ParameterMismatch                // mapper and matcher parameter lists differ
    | NotAFunction                     // parser: text has neither '=>' nor '{'
    | UngroupToZero                    // ungroup to level 0 with more than one item
    | CannotParseSelectors             // joiner: hash join on an undecomposable matcher
    | AmbiguousDataset(key: string)    // database: more than one dataset with the key
    | MissingDataset                   // database: a key passed is not a dataset
    | Thrown(payload: string)          // a value thrown by user code or rethrown by a handler
}
