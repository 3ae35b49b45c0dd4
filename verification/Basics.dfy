/** Types shared by every component of the dashboard model. */
module Basics {

  datatype Option<+T> = None | Some(value: T)

  /** What has come back so far for a request sent over the network. */
  datatype Reply<+T> = Waiting | Answered(value: T) | Failed
}
