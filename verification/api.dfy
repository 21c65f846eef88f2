/** The app's API-facing types. The weather response itself is never looked
    into by the logic modelled here, so it stays a type parameter. */
module Api {

  /** The state of a weather request as the screen observes it. `Error("")`
      doubles as the "nothing requested yet" state. */
  datatype NetworkResponse<+T> = Success(data: T) | Error(message: string) | Loading
}
