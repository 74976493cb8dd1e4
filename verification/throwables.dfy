/**
 * The JVM exceptions the core throws or inspects. A subclass of one of the
 * named classes (a `FileNotFoundException` is an `IOException`) is
 * represented by its named ancestor, because the core only ever asks `is`.
 */
module Throwables {
  import opened Wrappers

  datatype Throwable =
    | IOException(message: Option<string>)
    | TimeoutException(message: Option<string>)
    | RetriesLimitReachedException(reason: string, cause: Throwable)
    | VertxException(message: Option<string>)
    | BufferOverflowException
    | NoSuchElementException(reason: string)
    | OtherThrowable(className: string, message: Option<string>)
}
