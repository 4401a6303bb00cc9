/** Option and Result, the failure-carrying values the harness passes around
    in place of Rust's `Option` and `Result<_, failure::Error>`. */
module Wrappers {

  datatype Option<+T> = None | Some(value: T)

  datatype Result<+R, +E> = Ok(value: R) | Err(error: E)

  /** The errors the harness can surface. Rust's `failure::Error` is an open
      box; only the distinctions the control logic makes are kept. */
  datatype Error =
    | CatchAll                    // InternalError::CatchAll: no candidate found
    | ResolverError(msg: string)  // DNS configuration or lookup failure
    | ConnectError(msg: string)   // MorayClient::new failed
    | StoreError(msg: string)     // a put or batch call failed at the store
}
