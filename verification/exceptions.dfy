/** The exceptions the modelled scripts can raise, as data. */
module Exceptions {

  datatype Exception =
    | ValueError
    | TypeError
    | KeyError
    | IndexError
    | ZeroDivisionError
    | OSError
      /** `bytes.decode("utf-8")` or `json.loads` rejected the text. */
    | DecodeError
      /** The bare `Exception` raised for a line number outside the query file. */
    | InvalidLineNumber(lineNumber: int)
    | ConfigurationError(message: string)
}
