/** Optional values, the errors a run can end with, and a failure-compatible
    Result so that `:-` propagates an error the way Rust's `?` does. */
module Common {

  datatype Option<T> = None | Some(value: T) {
    /** Rust's `Option::or`: this value when present, otherwise `other`. */
    function Or(other: Option<T>): Option<T> {
      if Some? then this else other
    }
  }

  /** Every way a run of the program can fail in this model. */
  datatype Error =
    | NoTitleAvailable   // neither an English nor a romaji title (`bail!`)
    | PromptCancelled    // Esc on a prompt that cannot be skipped
    | PromptInterrupted  // Ctrl-C on any prompt, or an operator who answers no more
    | EmptyOptions       // a selection list with nothing in it
    | NoSuchOption       // an answer naming no option of the list shown
    | DisplayFailed      // an option whose `Display` returned an error (a panic)
    | NoBooks            // indexing an empty book list (a panic)

  datatype Result<T> = Ok(value: T) | Err(error: Error) {
    predicate IsFailure() {
      Err?
    }

    function PropagateFailure<U>(): Result<U>
      requires Err?
    {
      Err(error)
    }

    function Extract(): T
      requires Ok?
    {
      value
    }
  }
}
