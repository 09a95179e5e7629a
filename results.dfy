/** The outcome of a step that may end the job, and a possibly-null Java reference. */
module Results {

  datatype Result<T, E> = Success(value: T) | Failure(error: E)

  /** A Java reference that may be `null`. */
  datatype Nullable<T> = Null | Ref(value: T)
}
