/**
 * The Reactor and WebClient vocabulary of the services: the three ways a
 * `Mono` can finish, the exception classes the core raises, and the outcome
 * of one outbound HTTP call as the caller observes it.
 */
module Reactive {
  import opened Wrappers

  /** The Java exceptions the modelled code raises or lets through. */
  datatype Exception =
    | IllegalArgument(message: string)
    | IllegalState(message: string)
    | Runtime(message: string)
      /** Spring's `ResponseStatusException(status, reason)` */
    | ResponseStatus(status: int, reason: string)
      /** Reactor's `singleOrEmpty` on a source with two or more items */
    | IndexOutOfBounds(message: string)
      /** a failure with no response at all (connection refused, timeout) */
    | Transport(message: string)
      /** Spring Data's `IncorrectResultSizeDataAccessException`: a single-result query matched several documents */
    | IncorrectResultSize(message: string)
  {
    /** `Throwable.getMessage()` */
    function Message(): string {
      match this
      case IllegalArgument(m) => m
      case IllegalState(m) => m
      case Runtime(m) => m
      case ResponseStatus(s, r) => r
      case IndexOutOfBounds(m) => m
      case Transport(m) => m
      case IncorrectResultSize(m) => m
    }
  }

  /** How a `Mono<T>` terminates: one value, completion without a value, or an error. */
  datatype Mono<+T> = Value(value: T) | Empty | Error(error: Exception)

  /** The message Reactor gives `singleOrEmpty` when the source has more than one item. */
  const MoreThanOneItem: string := "Source emitted more than one item"

  /** The message of a single-result repository query that matched two or more documents (the query text omitted). */
  const NonUniqueResult: string := "Query returned non unique result."

  /**
   * One outbound WebClient call as the booking service sees it: a status
   * class and the response body, if any.  A 1xx/2xx/3xx status is `Success`.
   */
  datatype HttpReply =
    | Success(hasBody: bool)
    | ClientError(body: Option<string>)
    | ServerError(body: Option<string>)
    | NoResponse(message: string)
}
