/** Failure-carrying results for the complaint-count script.  The script
    never catches an exception: each one below ends the run. */
module Outcomes {

  datatype Option<T> = None | Some(value: T)

  /** The two exceptions the core can raise. */
  datatype Error =
    | BadDate(text: string)       // ValueError from strptime, naming the rejected text
    | MissingField(name: string)  // KeyError from row[name]

  datatype Result<T> = Success(value: T) | Failure(error: Error)
}
