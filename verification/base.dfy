/** Small value types shared by the whole model. */
module Base {

  /** A value that may be absent: JavaScript's `undefined` or `null`. */
  datatype Option<T> = None | Some(value: T) {
    /** The `??` operator: the value, or `default` when it is absent. */
    function GetOr(default: T): T {
      if Some? then value else default
    }
  }

  /** What an awaited call that rejects hands to its `catch` block: an `Error`
      object with its message, or some other thrown value. */
  datatype Thrown = ErrorObject(message: string) | OtherValue

  /** `error instanceof Error ? error.message : fallback`, the idiom every
      `catch` block of the application uses to turn a rejection into text. */
  function MessageOr(e: Thrown, fallback: string): string {
    if e.ErrorObject? then e.message else fallback
  }

  /** The outcome of an awaited call into code outside the model (the remote
      data service, the directory API): it returns a value or it rejects. */
  datatype Call<T> = Returned(value: T) | Threw(error: Thrown)
}
