/** Python exceptions as values: the class that matters for the calculator's
    `except` clauses, and the text `str(e)` would give. */
module Exceptions {

  /** The exception classes the calculator distinguishes. A subclass
      (`IndentationError`, `UnicodeError`, ...) is recorded as its base class. */
  datatype Kind = SyntaxError | ValueError | TypeError | OtherKind(name: string)

  datatype Exception = Exception(kind: Kind, message: string)

  /** Caught by `except (SyntaxError, ValueError)`. */
  predicate TriggersFallback(e: Exception) {
    e.kind == SyntaxError || e.kind == ValueError
  }
}
