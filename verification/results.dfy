/** Failure-carrying values shared by the pipeline stages, and the observable
    result of an external command (ffmpeg, ffprobe, the recognition client). */
module Results {

  datatype Option<+T> = None | Some(value: T)

  /** A stage either produces a value or raises; `Err` carries what the raised
      exception would carry. */
  datatype Result<+T, +E> = Ok(value: T) | Err(error: E) {
    predicate IsFailure() { Err? }

    function PropagateFailure<U>(): Result<U, E>
      requires Err?
    {
      Err(error)
    }

    function Extract(): T
      requires Ok?
    {
      value
    }
  }

  /** What `subprocess.run(..., capture_output=True)` hands back. */
  datatype CommandResult = CommandResult(returnCode: int, stdout: string, stderr: string) {
    predicate Succeeded() { returnCode == 0 }
  }
}
