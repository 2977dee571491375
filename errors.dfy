/** The exceptions the server throws, with the messages it gives them. */
module Errors {

  datatype Exception =
    /** `registerRoute` was given neither middleware nor handler. */
    | MissingHandler(verb: string, path: string)
    /** The last argument of `registerRoute` is not a function. */
    | InvalidHandler(path: string)
    /** The method is already bound at the route's node. */
    | RouteExists(verb: string, path: string)
    /** Mounting found the method bound on both sides of a merge. */
    | RouteConflict(verb: string)
    /** A chaining step invoked its continuation a second time. */
    | NextCalledTwice
    /** `error` was called on a response that was already committed. */
    | ResponseAlreadySent
    /** A cookie asked for SameSite=None without Secure. */
    | SameSiteNoneWithoutSecure
    /** The raw request has nothing before its blank line. */
    | NoHeaders
    /** The request body is absent or empty. */
    | NoBody
    /** The request body is not declared as JSON. */
    | NotJson
    /** The TypeError JavaScript raises when something that is not a
        function is called. */
    | NotCallable
    /** An exception raised by application code (a middleware or handler). */
    | Raised(tag: nat)

  /** The message the source attaches to each exception it creates. */
  function Message(e: Exception): string {
    match e
    case MissingHandler(m, p) => "Handler is required for " + m + " " + p
    case InvalidHandler(p) => "Handler must be a function for " + p
    case RouteExists(m, p) => "Route already exists for " + m + " " + p
    case RouteConflict(m) => "Route conflict: " + m + " already exists at this path"
    case NextCalledTwice => "next() called multiple times"
    case ResponseAlreadySent => "Response already sent"
    case SameSiteNoneWithoutSecure => "SameSite=None requires Secure"
    case NoHeaders => "Invalid HTTP Request: No headers found"
    case NoBody => "No body found"
    case NotJson => "Content-Type is not application/json"
    case NotCallable => "TypeError: not a function"
    case Raised(_) => ""
  }
}
